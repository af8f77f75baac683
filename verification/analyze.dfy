/** The analysis endpoint `handler` as a pure function of the request and of what its
    collaborators (configuration, the image fetch, the model, the JavaScript built-ins)
    produce. It returns the outcome and the external calls it made, in order. */
module Analyze {
  import opened Wrappers
  import opened JsValues
  import opened JsStrings
  import opened ImageInliner
  import opened Reconciler

  datatype Request = Request(httpMethod: string, body: Option<Json>)

  /** The handler's collaborators. `instructions` is the fixed instruction and schema text
      of the prompt template, whose wording is not modelled. */
  datatype Env = Env(
    apiKey: Option<string>,
    instructions: string,
    fetchImage: string -> FetchResult,
    generate: seq<Part> -> Completion<Option<string>>,
    builtins: Builtins)

  /** The request fields after defaulting; `imageUrl` is trimmed */
  datatype Fields = Fields(
    messagesText: string,
    userContext: string,
    linkUrl: string,
    extraNotes: string,
    imageUrl: string)

  datatype Outcome =
    | MethodNotAllowed
    | MissingKey
    | Failed(detail: string)
    | Warning(raw: string)
    | Ok(json: Json)

  /** An external call, in the order the handler makes them */
  datatype Call =
    | FetchImage(url: string)
    | ReadImageBody
    | Generate(parts: seq<Part>)
    | DeleteBlob(url: string)

  datatype Handled = Handled(outcome: Outcome, calls: seq<Call>)

  /** What goes back over HTTP: status, the Allow header, and the JSON body */
  datatype Reply = Reply(status: nat, allow: Option<string>, body: Json)

  const BlobHost: string := "blob.vercel-storage.com"

  /** `String(body[key] || "")` where `body` is `req.body || {}` */
  function Field(body: Option<Json>, key: string, b: Builtins): (r: Completion<string>)
    ensures r.Normal? ==> Defaulted(body, key, r.value)
    ensures r.Throw? ==> CompoundAt(body, key)
  {
    var obj := if body.Some? && Truthy(body.value) then body.value else JObj(map[]);
    ToStrOrEmpty(Member(obj, key), b)
  }

  /** `value` is what the field `key` of `body` defaults to: "" when the field is absent or
      falsy, the string itself when it is a string */
  predicate Defaulted(body: Option<Json>, key: string, value: string) {
    && (!Present(body, key) ==> value == "")
    && (StringAt(body, key) ==> value == Member(body.value, key).value.s)
  }

  /** `handler` in analyze.ts, lines 22-27: four text fields defaulting to "" and a trimmed
      image URL */
  function ExtractFields(body: Option<Json>, b: Builtins): (r: Completion<Fields>)
    ensures r.Normal? ==>
      && Defaulted(body, "messages_text", r.value.messagesText)
      && Defaulted(body, "user_context", r.value.userContext)
      && Defaulted(body, "link_url", r.value.linkUrl)
      && Defaulted(body, "extra_notes", r.value.extraNotes)
    // the image URL is defaulted the same way, then stripped of white space at both ends
    ensures r.Normal? && !Present(body, "image_url") ==> r.value.imageUrl == ""
    ensures r.Normal? && StringAt(body, "image_url") ==>
      r.value.imageUrl == Trim(Member(body.value, "image_url").value.s)
    ensures r.Normal? ==> Tight(r.value.imageUrl)
    // only String() of an array or object can throw
    ensures r.Throw? ==>
      || CompoundAt(body, "messages_text") || CompoundAt(body, "user_context")
      || CompoundAt(body, "link_url") || CompoundAt(body, "extra_notes")
      || CompoundAt(body, "image_url")
  {
    var messagesText :- Field(body, "messages_text", b);
    var userContext :- Field(body, "user_context", b);
    var linkUrl :- Field(body, "link_url", b);
    var extraNotes :- Field(body, "extra_notes", b);
    var imageUrl :- Field(body, "image_url", b);
    Normal(Fields(messagesText, userContext, linkUrl, extraNotes, Trim(imageUrl)))
  }

  /** The body has a truthy value under `key` */
  predicate Present(body: Option<Json>, key: string) {
    body.Some? && Member(body.value, key).Some? && Truthy(Member(body.value, key).value)
  }

  predicate StringAt(body: Option<Json>, key: string) {
    body.Some? && Member(body.value, key).Some? && Member(body.value, key).value.JStr?
  }

  predicate CompoundAt(body: Option<Json>, key: string) {
    body.Some? && Member(body.value, key).Some?
    && (Member(body.value, key).value.JArr? || Member(body.value, key).value.JObj?)
  }

  /** `!apiKey`: an absent or empty key counts as missing */
  predicate HasKey(apiKey: Option<string>) {
    apiKey.Some? && apiKey.value != ""
  }

  /** `handler` in analyze.ts, lines 34-61: the fields interpolated, in order, into the
      template, and the whole trimmed */
  function Prompt(f: Fields, instructions: string): string {
    Trim("\n" + Interpolation(f, instructions) + "\n")
  }

  /** The template between its opening and closing line breaks */
  function Interpolation(f: Fields, instructions: string): string {
    instructions
      + "\n\nmessages_text:\n" + f.messagesText
      + "\n\nuser_context:\n" + f.userContext
      + "\n\nlink_url:\n" + f.linkUrl
      + "\n\nextra_notes:\n" + f.extraNotes
  }

  /** `handler` in analyze.ts, lines 74-108: the prompt part, then the image step when there
      is an image URL */
  function PrepareParts(f: Fields, env: Env): (r: StepResult)
    ensures f.imageUrl == "" ==> r == StepResult([Text(Prompt(f, env.instructions))], false)
  {
    var prompt := Prompt(f, env.instructions);
    if f.imageUrl == "" then StepResult([Text(prompt)], false)
    else AttachImage(prompt, env.fetchImage(f.imageUrl), env.builtins)
  }

  /** The image calls made by the step */
  function ImageCalls(f: Fields, step: StepResult): seq<Call> {
    if f.imageUrl == "" then []
    else [FetchImage(f.imageUrl)] + (if step.bodyRead then [ReadImageBody] else [])
  }

  /** `handler` in analyze.ts, line 145: a non-empty URL mentioning the blob store's host */
  predicate IsBlobUrl(url: string) {
    url != "" && Includes(url, BlobHost)
  }

  /** `handler` in analyze.ts, lines 111-159, from the model's answer on: reconcile, clean
      up, choose the outcome. The flag says whether the blob delete was attempted. */
  function Conclude(answer: Option<string>, imageUrl: string, b: Builtins): (r: (Outcome, bool))
    ensures r.0.Failed? || r.0.Warning? || r.0.Ok?
    ensures r.1 ==> IsBlobUrl(imageUrl)
    // an object answered with has been normalised to the full schema
    ensures r.0.Ok? && r.0.json.JObj? ==> Conforms(r.0.json.fields)
  {
    var text := answer.GetOr("");
    var parsed := ParseModelText(text, b.parse);
    match Reconcile(parsed, b)
    case Throw(e) => (Failed(e), false)
    case Normal(v) =>
      var cleanup := IsBlobUrl(imageUrl);
      if !Truthy(v) then (Warning(text), cleanup) else (Ok(v), cleanup)
  }

  /** `handler` in analyze.ts, lines 4-166 */
  function Handle(req: Request, env: Env): (h: Handled)
    // a body whose fields cannot be read fails the request before the key check or any call
    ensures req.httpMethod == "POST" && ExtractFields(req.body, env.builtins).Throw? ==>
      h == Handled(Failed(ExtractFields(req.body, env.builtins).message), [])
    // any method but POST is refused before the body is looked at
    ensures req.httpMethod != "POST" ==> h == Handled(MethodNotAllowed, [])
  {
    if req.httpMethod != "POST" then Handled(MethodNotAllowed, [])
    else
      match ExtractFields(req.body, env.builtins)
      case Throw(e) => Handled(Failed(e), [])
      case Normal(f) =>
        if !HasKey(env.apiKey) then Handled(MissingKey, []) else Run(f, env)
  }

  /** `handler` in analyze.ts, lines 34-159, once the request is admitted with fields `f` */
  function Run(f: Fields, env: Env): (h: Handled)
    ensures h.outcome.Failed? || h.outcome.Warning? || h.outcome.Ok?
  {
    var step := PrepareParts(f, env);
    match env.generate(step.parts)
    case Throw(e) => Handled(Failed(e), Trace(f, step, false))
    case Normal(answer) =>
      var (outcome, cleanup) := Conclude(answer, f.imageUrl, env.builtins);
      Handled(outcome, Trace(f, step, cleanup))
  }

  /** The calls of an admitted request, given the image step and whether it cleans up */
  function Trace(f: Fields, step: StepResult, cleanup: bool): seq<Call> {
    ImageCalls(f, step) + [Generate(step.parts)] + if cleanup then [DeleteBlob(f.imageUrl)] else []
  }

  /** The HTTP reply for an outcome */
  function Render(o: Outcome): (r: Reply)
    ensures r.status == 405 <==> o.MethodNotAllowed?
    ensures r.allow == Some("POST") <==> o.MethodNotAllowed?
    ensures r.allow.None? <==> !o.MethodNotAllowed?
    ensures r.status == 500 <==> o.MissingKey? || o.Failed?
    ensures r.status == 200 <==> o.Warning? || o.Ok?
    ensures o.Ok? ==> r.body == o.json
    ensures o.Warning? ==>
      Member(r.body, "raw") == Some(JStr(o.raw)) && Member(r.body, "ok") == Some(JBool(true))
    ensures o.Failed? ==>
      && Member(r.body, "detail") == Some(JStr(o.detail))
      && Member(r.body, "error") == Some(JStr("Analysis failed"))
    // every body the handler builds itself is an object with exactly these keys
    ensures !o.Ok? ==> r.body.JObj?
    ensures o.MethodNotAllowed? || o.MissingKey? ==> r.body.fields.Keys == {"error"}
    ensures o.Failed? ==> r.body.fields.Keys == {"error", "detail"}
    ensures o.Warning? ==> r.body.fields.Keys == {"ok", "warning", "raw"}
    ensures o.MethodNotAllowed? ==> Member(r.body, "error") == Some(JStr("Method not allowed. Use POST."))
    ensures o.MissingKey? ==> Member(r.body, "error") == Some(JStr("Missing GEMINI_API_KEY"))
    ensures o.Warning? ==> Member(r.body, "warning") == Some(JStr("Model did not return valid JSON"))
  {
    match o
    case MethodNotAllowed =>
      Reply(405, Some("POST"), JObj(map["error" := JStr("Method not allowed. Use POST.")]))
    case MissingKey =>
      Reply(500, None, JObj(map["error" := JStr("Missing GEMINI_API_KEY")]))
    case Failed(detail) =>
      Reply(500, None, JObj(map["error" := JStr("Analysis failed"), "detail" := JStr(detail)]))
    case Warning(raw) =>
      Reply(200, None, JObj(map[
        "ok" := JBool(true),
        "warning" := JStr("Model did not return valid JSON"),
        "raw" := JStr(raw)]))
    case Ok(json) =>
      Reply(200, None, json)
  }

  /** Both a missing key and a failed analysis answer 500, but their bodies tell them apart:
      only a failure carries a `detail`, and the `error` texts differ */
  lemma MissingKeyDistinct(detail: string)
    ensures Render(MissingKey).status == Render(Failed(detail)).status == 500
    ensures Render(MissingKey).body != Render(Failed(detail)).body
  {
  }

  /** The request passed the method, field and key checks, so the model will be called */
  predicate Admitted(req: Request, env: Env) {
    && req.httpMethod == "POST"
    && ExtractFields(req.body, env.builtins).Normal?
    && HasKey(env.apiKey)
  }

  /** `handler` in analyze.ts, lines 11-14: every method but POST, and only those, gets 405
      with `Allow: POST`, and nothing else happens */
  lemma MethodGate(req: Request, env: Env)
    ensures Handle(req, env).outcome.MethodNotAllowed? <==> req.httpMethod != "POST"
    ensures req.httpMethod != "POST" ==>
      && Handle(req, env).calls == []
      && Render(Handle(req, env).outcome).status == 405
      && Render(Handle(req, env).outcome).allow == Some("POST")
  {
    if Admitted(req, env) {
      AdmittedRuns(req, env);
    }
  }

  /** `handler` in analyze.ts, lines 29-32: a missing or empty key gives 500 before any
      fetch or model call */
  lemma MissingKeyGate(req: Request, env: Env)
    ensures Handle(req, env).outcome.MissingKey? <==>
      req.httpMethod == "POST" && ExtractFields(req.body, env.builtins).Normal? && !HasKey(env.apiKey)
    ensures Handle(req, env).outcome.MissingKey? ==>
      Handle(req, env).calls == [] && Render(Handle(req, env).outcome).status == 500
  {
    if Admitted(req, env) {
      AdmittedRuns(req, env);
    }
  }

  /** An admitted request runs the rest of the handler on its extracted fields */
  lemma AdmittedRuns(req: Request, env: Env)
    requires Admitted(req, env)
    ensures Handle(req, env) == Run(ExtractFields(req.body, env.builtins).value, env)
  {
  }

  /** The calls of an admitted request, in order: the image fetch (and body read) if there is
      an image URL, one model call with the prepared parts, and at most one blob delete, last */
  lemma RunCalls(f: Fields, env: Env)
    ensures var step := PrepareParts(f, env);
      Run(f, env).calls == Trace(f, step, AnswerReconciled(f, env) && IsBlobUrl(f.imageUrl))
  {
    var step := PrepareParts(f, env);
    var answer := env.generate(step.parts);
    if answer.Normal? {
      var text := answer.value.GetOr("");
      var parsed := ParseModelText(text, env.builtins.parse);
      var (outcome, cleanup) := Conclude(answer.value, f.imageUrl, env.builtins);
      assert cleanup <==> Reconcile(parsed, env.builtins).Normal? && IsBlobUrl(f.imageUrl);
    }
  }

  /** `handler` in analyze.ts, line 77: the image is fetched exactly when the trimmed URL is
      non-empty, first of all calls; without one the model call comes first, with the prompt
      alone */
  lemma FetchOnlyWithImage(f: Fields, env: Env)
    ensures f.imageUrl == "" ==> Run(f, env).calls[0] == Generate([Text(Prompt(f, env.instructions))])
    ensures f.imageUrl != "" ==> Run(f, env).calls[0] == FetchImage(f.imageUrl)
    ensures FetchImage(f.imageUrl) in Run(f, env).calls <==> f.imageUrl != ""
  {
    RunCalls(f, env);
    TraceStarts(f, PrepareParts(f, env), AnswerReconciled(f, env) && IsBlobUrl(f.imageUrl));
  }

  lemma TraceStarts(f: Fields, step: StepResult, cleanup: bool)
    ensures f.imageUrl == "" ==> Trace(f, step, cleanup)[0] == Generate(step.parts)
    ensures f.imageUrl != "" ==> Trace(f, step, cleanup)[0] == FetchImage(f.imageUrl)
    ensures FetchImage(f.imageUrl) in Trace(f, step, cleanup) <==> f.imageUrl != ""
  {
    var rest := [Generate(step.parts)] + if cleanup then [DeleteBlob(f.imageUrl)] else [];
    assert Trace(f, step, cleanup) == ImageCalls(f, step) + rest;
    assert FetchImage(f.imageUrl) !in rest;
  }

  /** `handler` in analyze.ts, lines 80-99: the image body is read only when the response
      passed the status, size and content-type checks */
  lemma BodyReadOnlyWhenAccepted(f: Fields, env: Env)
    ensures ReadImageBody in Run(f, env).calls <==>
      && f.imageUrl != ""
      && env.fetchImage(f.imageUrl).Responded?
      && Accepted(env.fetchImage(f.imageUrl).response, env.builtins)
  {
    var step := PrepareParts(f, env);
    ReadCallIffBodyRead(f, env);
    if f.imageUrl != "" { StepReadsBody(f, env); }
  }

  lemma ReadCallIffBodyRead(f: Fields, env: Env)
    ensures ReadImageBody in Run(f, env).calls <==> f.imageUrl != "" && PrepareParts(f, env).bodyRead
  {
    RunCalls(f, env);
    var step := PrepareParts(f, env);
    TraceReads(f, step, AnswerReconciled(f, env) && IsBlobUrl(f.imageUrl));
  }

  lemma TraceReads(f: Fields, step: StepResult, cleanup: bool)
    ensures ReadImageBody in Trace(f, step, cleanup) <==> f.imageUrl != "" && step.bodyRead
  {
    var rest := [Generate(step.parts)] + if cleanup then [DeleteBlob(f.imageUrl)] else [];
    assert Trace(f, step, cleanup) == ImageCalls(f, step) + rest;
    assert ReadImageBody !in rest;
  }

  lemma StepReadsBody(f: Fields, env: Env)
    requires f.imageUrl != ""
    ensures PrepareParts(f, env).bodyRead <==>
      env.fetchImage(f.imageUrl).Responded? && Accepted(env.fetchImage(f.imageUrl).response, env.builtins)
  {
  }

  /** No call is made before admission */
  lemma NoCallsUnlessAdmitted(req: Request, env: Env)
    ensures !Admitted(req, env) ==> Handle(req, env).calls == []
    ensures Admitted(req, env) ==> exists parts :: Generate(parts) in Handle(req, env).calls
  {
    if Admitted(req, env) {
      var f := ExtractFields(req.body, env.builtins).value;
      AdmittedRuns(req, env);
      RunCalls(f, env);
      var step := PrepareParts(f, env);
      assert Generate(step.parts) in ImageCalls(f, step) + [Generate(step.parts)];
    }
  }

  /** The model's answer, when it returned one, and how it reconciles */
  predicate AnswerReconciled(f: Fields, env: Env) {
    var answer := env.generate(PrepareParts(f, env).parts);
    && answer.Normal?
    && Reconcile(ParseModelText(answer.value.GetOr(""), env.builtins.parse), env.builtins).Normal?
  }

  /** `handler` in analyze.ts, lines 144-149: the blob is deleted exactly when the model
      answered, the answer was reconciled without an exception, and the URL points into the
      blob store */
  lemma CleanupCondition(f: Fields, env: Env)
    ensures DeleteBlob(f.imageUrl) in Run(f, env).calls <==> AnswerReconciled(f, env) && IsBlobUrl(f.imageUrl)
  {
    RunCalls(f, env);
    TraceDeletes(f, PrepareParts(f, env), AnswerReconciled(f, env) && IsBlobUrl(f.imageUrl));
  }

  /** Only the request's own image URL is ever deleted */
  lemma CleanupTarget(f: Fields, env: Env)
    ensures forall u :: DeleteBlob(u) in Run(f, env).calls ==> u == f.imageUrl
  {
    RunCalls(f, env);
    TraceDeletes(f, PrepareParts(f, env), AnswerReconciled(f, env) && IsBlobUrl(f.imageUrl));
  }

  lemma TraceDeletes(f: Fields, step: StepResult, cleanup: bool)
    ensures DeleteBlob(f.imageUrl) in Trace(f, step, cleanup) <==> cleanup
    ensures forall u :: DeleteBlob(u) in Trace(f, step, cleanup) ==> u == f.imageUrl
  {
    var before := ImageCalls(f, step) + [Generate(step.parts)];
    assert forall u :: DeleteBlob(u) !in before;
    if cleanup {
      assert Trace(f, step, cleanup) == before + [DeleteBlob(f.imageUrl)];
    } else {
      assert Trace(f, step, cleanup) == before;
    }
  }

  /** `handler` in analyze.ts, lines 110-165 after admission: a model exception gives 500
      with its message; an answer with nothing truthy to recover gives 200 with the raw
      text; otherwise the reconciled value, or 500 when reconciling threw */
  lemma OutcomeSelection(f: Fields, env: Env)
    ensures var answer := env.generate(PrepareParts(f, env).parts);
      var outcome := Run(f, env).outcome;
      && (answer.Throw? ==> outcome == Failed(answer.message))
      && (answer.Normal? ==>
            var text := answer.value.GetOr("");
            var parsed := ParseModelText(text, env.builtins.parse);
            var reconciled := Reconcile(parsed, env.builtins);
            && (!Truthy(parsed) ==> outcome == Warning(text))
            && (Truthy(parsed) && reconciled.Normal? ==> outcome == Ok(reconciled.value))
            && (reconciled.Throw? ==> outcome == Failed(reconciled.message)))
  {
  }

  /** Every object the endpoint answers with has the full result schema */
  lemma OkObjectConforms(req: Request, env: Env)
    ensures var o := Handle(req, env).outcome;
      o.Ok? && o.json.JObj? ==> Conforms(o.json.fields)
  {
    if Admitted(req, env) {
      AdmittedRuns(req, env);
      RunConforms(ExtractFields(req.body, env.builtins).value, env);
    }
  }

  /** The same for the rest of the handler, from the extracted fields on */
  lemma RunConforms(f: Fields, env: Env)
    ensures var o := Run(f, env).outcome;
      o.Ok? && o.json.JObj? ==> Conforms(o.json.fields)
  {
    var step := PrepareParts(f, env);
    match env.generate(step.parts)
    case Throw(_) =>
    case Normal(answer) =>
      assert Run(f, env).outcome == Conclude(answer, f.imageUrl, env.builtins).0;
  }

  /** An image URL answering with a failed status only annotates the prompt: the model is
      still called, with the single annotated text part */
  lemma FailedImageStillAnalysed(f: Fields, env: Env)
    requires f.imageUrl != ""
    requires env.fetchImage(f.imageUrl).Responded? && !env.fetchImage(f.imageUrl).response.Ok()
    ensures var status := env.fetchImage(f.imageUrl).response.status;
      Run(f, env).calls[..2] ==
        [FetchImage(f.imageUrl), Generate([Text(Prompt(f, env.instructions) + StatusNote(status))])]
  {
    RunCalls(f, env);
    var step := PrepareParts(f, env);
    assert ImageCalls(f, step) == [FetchImage(f.imageUrl)];
  }

  /** The line breaks that open and close the template are trimmed away with the white space
      at the ends of the interpolation: the prompt is the trimmed interpolation */
  lemma PromptTrimsTemplate(f: Fields, instructions: string)
    ensures Prompt(f, instructions) == Trim(Interpolation(f, instructions))
    ensures Tight(Prompt(f, instructions))
  {
    assert AllWhiteSpace("\n");
    TrimPadded("\n", Interpolation(f, instructions), "\n");
  }

  /** The template is trimmed as a whole: when the instructions do not start with white space
      and the extra notes do not end with it, the prompt is exactly the interpolation */
  lemma PromptInterpolation(f: Fields, instructions: string)
    requires instructions != [] && !IsWhiteSpace(instructions[0])
    requires f.extraNotes != [] && !IsWhiteSpace(f.extraNotes[|f.extraNotes| - 1])
    ensures Prompt(f, instructions) == Interpolation(f, instructions)
  {
    var body := Interpolation(f, instructions);
    assert body[0] == instructions[0];
    assert body[|body| - 1] == f.extraNotes[|f.extraNotes| - 1];
    assert AllWhiteSpace("\n");
    TrimUnique("\n", body, "\n");
  }
}
