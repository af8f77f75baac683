# Scam-risk analysis: endpoint and form, modelled in Dafny

This project models the two pieces of logic in the scam-risk analysis app:

- the serverless endpoint `POST /api/analyze` (`my-app/api/analyze.ts`);
- the browser form that calls it (`my-app/src/form.tsx`).

The endpoint does the following, in order:

1. It rejects every method but POST.
2. It reads five text fields from the request body, each defaulting to "". The image URL is also trimmed.
3. It refuses to go on without a configured API key.
4. It builds a prompt and may attach an image fetched from the image URL. When the image cannot be used, one `IMAGE_NOTE` line is appended to the prompt instead.
5. It calls the model and recovers a JSON value from the answer:
   - strict parse first;
   - then the text from the first `{` to the last `}`;
   - else `null`.
6. It coerces a recovered object into the result schema (`summary`, `risk_level`, `confidence`, `red_flags`, `inconsistencies`, `next_steps`).
7. It deletes an uploaded blob when possible. Then it answers with one of:
   - 200 with the object;
   - 200 with a warning and the raw text;
   - 500.

The form does the following:

- It validates that the user gave an image, a link or a comment.
- It enables its button from a separate flag.
- It uploads a selected file first.
- It posts the payload and turns the reply into the result object it shows.

Everything is modelled as pure functions. Each collaborator's answer is a parameter of the model:

- the model service;
- the image fetch;
- the blob store;
- the API key;
- the JavaScript built-ins whose internals are out of scope: `JSON.parse`, `Number` on a string, number-to-string, `String`/`Number` of arrays and objects, base64.

The handler returns its outcome together with the ordered list of external calls it made. This is how the lemmas can state what happens before what.

Modules:

- `Wrappers`: `Option`, and `Completion`. A `Completion` is a value or a thrown message. It is how every JavaScript exception is modelled.
- `JsValues`: JSON values with JavaScript numbers (NaN and the infinities included), truthiness, `typeof … === "object"`, and the `Number(…)` / `String(…)` coercions.
- `JsStrings`: `trim` with ECMAScript white space, `indexOf`, `lastIndexOf`, `includes`, `startsWith`, and decimal rendering of naturals.
- `ImageInliner`: the image step (lines 77-108 of the endpoint).
- `Reconciler`: recovering JSON from the model's text and normalising it (lines 113-142).
- `Analyze`: the handler as a whole, its call trace, and the HTTP replies.
- `Form`: validation, the button flag, the payload, reply interpretation, and `onSubmit`.

## Model

| member | source | states |
|---|---|---|
| JsStrings.Trim | my-app/api/analyze.ts:27 | the result has no white space at either end, the input is white space + result + white space, and the result is empty exactly when the input is all white space |
| JsStrings.TrimUnique | my-app/api/analyze.ts:34-61 | trimming white space + a tight string + white space gives back exactly that string (used for the trimmed prompt template) |
| JsStrings.TrimIdempotent | my-app/api/analyze.ts:27 | trimming an already trimmed string changes nothing |
| JsStrings.TrimPadded | my-app/api/analyze.ts:34-61 | white space added around a string does not change its trim |
| JsStrings.IndexOf | my-app/api/analyze.ts:118 | -1 exactly when the character is absent; otherwise the position of its first occurrence |
| JsStrings.LastIndexOf | my-app/api/analyze.ts:119 | -1 exactly when the character is absent; otherwise the position of its last occurrence |
| JsStrings.NatToDecimal | my-app/api/analyze.ts:101 | a status renders as at least one decimal digit, with no leading zero except for 0 itself |
| JsStrings.DecimalRoundTrip | my-app/api/analyze.ts:101 | the decimal text of a natural reads back as that natural |
| JsValues.ToStrOrEmpty | my-app/api/analyze.ts:23-26 | `String(v \|\| "")` is "" for a missing value, the string itself for a string, and cannot throw unless the value is an array or object |
| ImageInliner.AttachImage | my-app/api/analyze.ts:77-108 | the body is read exactly when the fetch answered ok with a declared size of at most 5 MiB (or none) and an `image/` type. The image is attached, as its declared type and the base64 of its body, exactly when in addition the body was read without error. Otherwise the prompt is followed by the note of what went wrong: a fetch that threw gives the exception note with its message; a bad status the status note; an oversized declared length the size note; a non-image type the content-type note; a body that throws on reading the exception note |
| ImageInliner.Screen | my-app/api/analyze.ts:80-102 | for a response that arrived, the checks run in order: a non-ok status gives the status note; else a declared size over 5 MiB gives the size note with that size; else a type not starting with `image/` gives the content-type note with the type ("" when absent). Only a response passing all three has its body read |
| ImageInliner.ReadBody | my-app/api/analyze.ts:91-98 | an accepted body that reads normally is attached under its declared content type, so the `image/jpeg` fallback is never used. A body that throws on reading leaves the prompt followed by the exception note with that message, and nothing attached |
| ImageInliner.FailedStatusNote | my-app/api/analyze.ts:100-102 | a non-ok status gives only the status note and no body read |
| ImageInliner.StatusNoteReadBack | my-app/api/analyze.ts:101 | the note ends with the status in decimal, and those digits read back as the status |
| ImageInliner.TooLargeWins | my-app/api/analyze.ts:82-89 | a declared size over 5 MiB gives the size note whatever the content type and body, and the body is not read |
| ImageInliner.SizeBoundary | my-app/api/analyze.ts:86 | 5 242 880 bytes is accepted and 5 242 881 is too large |
| Reconciler.SalvageCandidate | my-app/api/analyze.ts:118-122 | a candidate exists exactly when some `{` precedes some `}`. It starts with `{`, ends with `}`, and is a piece of the text with no `{` before it and no `}` after it |
| Reconciler.SalvageDecomposition | my-app/api/analyze.ts:118-122 | prose without `{` + an object text + prose without `}` salvages to exactly the object text |
| Reconciler.ParseModelText | my-app/api/analyze.ts:114-127 | a strict parse that succeeds is taken as is. Otherwise the parse of the candidate is taken, or null when there is no candidate or it does not parse |
| Reconciler.NoBracesNoData | my-app/api/analyze.ts:114-127 | unparseable text with no `{` before a `}` yields null |
| Reconciler.Clamp | my-app/api/analyze.ts:132 | the clamp lands in [0, 1]: identity inside, 0 below, 1 above |
| Reconciler.Confidence | my-app/api/analyze.ts:131-132 | the new confidence is in [0, 1]: `Number(...)` of the old value, clamped, or 0 when that number is not finite. So a number or a numeric string is clamped, null and false give 0, true gives 1, a missing value gives 0. Only an array or object can throw, exactly when its conversion throws |
| Reconciler.ConfidenceExamples | my-app/api/analyze.ts:131-132 | 2 becomes 1, -3 becomes 0, 0.4 stays, NaN and a missing value become 0. A string that does not parse as a number becomes 0, "0.8" becomes 0.8 and "7" becomes 1. null and false become 0, true becomes 1 |
| Reconciler.OutOfRangeConfidence | my-app/api/analyze.ts:130-142 | an object with confidence 2 and a string summary is normalised without error, and its confidence becomes 1 |
| Reconciler.NormalizeFields | my-app/api/analyze.ts:130-142 | the result conforms to the schema and keeps every key, adding the six schema keys. Non-schema keys are untouched. Lists are kept or replaced by [], a string summary is kept, a valid risk level is kept or else becomes "medium". The confidence becomes the clamped coerced number of the old value, and a non-string summary becomes the `String(v \|\| "")` text of the old value. It throws exactly when one of these two coercions throws, so only on an array or object confidence or summary |
| Reconciler.Normalize | my-app/api/analyze.ts:130-142 | an array passes unchanged. An object fails exactly when its fields fail, and otherwise comes back conforming |
| Reconciler.NormalizeFixedPoint | my-app/api/analyze.ts:130-142 | normalisation leaves an object unchanged exactly when it already conforms |
| Reconciler.NormalizeIdempotent | my-app/api/analyze.ts:130-142 | normalising a normalised value changes nothing |
| Reconciler.Reconcile | my-app/api/analyze.ts:130 | only truthy arrays and objects are touched. Truthiness is preserved, and an object comes out conforming |
| Analyze.Field | my-app/api/analyze.ts:22-26 | a field is "" when absent or falsy and the string itself when a string; it throws only for an array or object |
| Analyze.ExtractFields | my-app/api/analyze.ts:22-27 | the four text fields default as above. The image URL is "" when absent, or else the trimmed string, and never has white space at its ends. Extraction throws only when some field is an array or object |
| Analyze.PrepareParts | my-app/api/analyze.ts:74-77 | without an image URL the model gets the single prompt part and no body is read |
| Analyze.Conclude | my-app/api/analyze.ts:111-159 | after the model answers, the outcome is a failure, a warning or a value, and a delete is attempted only for a blob-store URL. An object value has been normalised to the full schema |
| Analyze.Run | my-app/api/analyze.ts:34-165 | once admitted, the request ends in 500-with-detail, the warning, or a value, never in 405 or the missing-key reply |
| Analyze.Render | my-app/api/analyze.ts:11-165 | 405 with `Allow: POST` exactly for the method rejection, with only the method error. 500 exactly for a missing key, with only the `Missing GEMINI_API_KEY` error, or for a failure, with only the `Analysis failed` error and the detail. 200 exactly for a warning, with only `ok: true`, the warning text and the raw text, or for a value, sent as is |
| Analyze.MissingKeyDistinct | my-app/api/analyze.ts:29-32 | a missing key and a failed analysis both answer 500, but never with the same body |
| Analyze.Handle | my-app/api/analyze.ts:4-166 | any method but POST is refused with no calls. A POST whose fields cannot be read fails with the coercion's message, before the key check and with no calls |
| Analyze.MethodGate | my-app/api/analyze.ts:11-14 | exactly the non-POST methods get 405 with `Allow: POST`, and no call is made |
| Analyze.MissingKeyGate | my-app/api/analyze.ts:29-32 | a POST with readable fields but an absent or empty key, and only that, gets the 500 key error with no call made |
| Analyze.AdmittedRuns | my-app/api/analyze.ts:11-32 | a request that passes the method, field and key checks runs the rest on its extracted fields |
| Analyze.RunCalls | my-app/api/analyze.ts:74-149 | the calls, in order: image fetch and body read when applicable, one model call with the prepared parts, and a delete last exactly when the answer reconciled and the URL is in the blob store |
| Analyze.NoCallsUnlessAdmitted | my-app/api/analyze.ts:11-32 | no call is made unless the request is admitted; an admitted request always calls the model |
| Analyze.FetchOnlyWithImage | my-app/api/analyze.ts:77-79 | the image is fetched exactly when the trimmed URL is non-empty, and then first. Without it, the first call is the model call with the prompt alone |
| Analyze.BodyReadOnlyWhenAccepted | my-app/api/analyze.ts:80-91 | the image body is read exactly when the fetch answered and passed the status, size and content-type checks |
| Analyze.CleanupCondition | my-app/api/analyze.ts:144-149 | the blob is deleted exactly when the model answered, reconciliation did not throw, and the URL mentions the blob-store host |
| Analyze.CleanupTarget | my-app/api/analyze.ts:145-147 | no URL other than the request's image URL is ever deleted |
| Analyze.OutcomeSelection | my-app/api/analyze.ts:110-165 | a model exception gives a failure with its message. A falsy recovered value gives the warning with the raw text. A truthy one gives the reconciled value, or a failure when reconciling threw |
| Analyze.OkObjectConforms | my-app/api/analyze.ts:130-159 | every object the endpoint answers 200 with has the full schema |
| Analyze.FailedImageStillAnalysed | my-app/api/analyze.ts:100-110 | an image URL answering with a failed status still leads to a model call, with the single prompt part carrying the status note |
| Analyze.PromptInterpolation | my-app/api/analyze.ts:34-61 | when the instructions start and the extra notes end with visible characters, the prompt is exactly the template with the fields interpolated in order |
| Analyze.PromptTrimsTemplate | my-app/api/analyze.ts:34-61 | the prompt is the interpolated template trimmed: the line breaks that open and close the template never survive, and the prompt has no white space at either end |
| Form.Validate | my-app/src/form.tsx:7-19 | validation passes exactly when the image is truthy or the link or comment has a visible character. A failure is attached to `comments` |
| Form.CanAnalyzeMatchesRefine | my-app/src/form.tsx:35-36 | with link and comments defined, the button is enabled exactly when validation would pass |
| Form.RefineImpliesCanAnalyze | my-app/src/form.tsx:35-36 | the button is never disabled for values that pass validation |
| Form.CanAnalyzeDiverges | my-app/src/form.tsx:35-36 | an undefined link with an empty comment enables the button although validation rejects the values |
| Form.DefaultsBlocked | my-app/src/form.tsx:31 | the default values neither enable the button nor pass validation |
| Form.PayloadReachesEndpoint | my-app/src/form.tsx:63-69 | the endpoint reads back every payload field unchanged, except that the image URL is trimmed |
| Form.BuildPayload | my-app/src/form.tsx:63-69 | the message text and user context are sent empty; the link and the comments are sent as entered, or "" when missing; the image URL is the uploaded URL for a File and "" otherwise |
| Form.SubmittedFields | my-app/src/form.tsx:47-75 | whatever the form posts, the endpoint extracts empty message text and context, the link and comments as entered, and the trimmed blob URL exactly when a File was uploaded |
| Form.Spread | my-app/src/form.tsx:88 | spreading copies an object's entries and an array's or a string's elements under their decimal indices, and copies nothing from other values |
| Form.ParseReply | my-app/src/form.tsx:80-85 | a parseable reply is taken as parsed. Otherwise the result is an object with exactly two keys: the non-JSON error and the raw text |
| Form.Interpret | my-app/src/form.tsx:87-92 | an ok reply is shown as parsed. Otherwise the keys are the parsed entries plus `status`: parsed entries win, and `status` holds the HTTP status unless the reply carried its own |
| Form.Submit | my-app/src/form.tsx:42-98 | `loading` ends false on every path. The upload happens exactly for a File, and first. A failed upload ends with the failure result and no POST. A successful upload is followed by the one POST of the payload carrying the blob URL, and that URL is displayed. Without a File, the one call is the POST of the payload with an empty image URL, and the displayed URL is unchanged. A POST that answers is interpreted, one that throws is reported as a failure |

## Left out

- The model service (`@google/generative-ai`, model name, temperature, response MIME type): the model's answer, or its exception, is a parameter. An answer without text (`?? ""`) is `None`.
- The wording of the prompt's instruction and schema block: it is a parameter, and only the interpolation of the four fields and the trimming are modelled.
- `require` failures of the two libraries: their loading is outside the model.
- The blob `del` call: it is recorded as a call, and its errors are swallowed by the source, so its result is not modelled.
- `fetch`, `arrayBuffer` and base64 encoding: they are parameters. Headers are modelled as present or absent strings.
- `JSON.parse`, `Number` on strings, number-to-string, and `String`/`Number` of arrays and objects (which throw, for instance, on a parsed object whose own `toString` key holds a non-function): these are parameters of the built-ins.
- IEEE-754 arithmetic: numbers are reals plus NaN and the two infinities. Negative zero is not distinguished.
- JSON serialisation of the reply: `res.json` turning non-finite numbers into `null`, and object key order (objects are maps).
- Strings are sequences of characters, not UTF-16 code units.
- Request bodies that are not JSON values (such as raw buffers): a body is a JSON value or absent.
- Property reads: only own keys of plain objects. Reading `messages_text` and the like from an array or string finds nothing.
- The environment: only whether the API key is present and non-empty is modelled.
- React rendering, hooks, the file input, and the upload's `/api/upload` handshake: the upload is a parameter that returns a URL or throws, and the state that `onSubmit` leaves behind is returned as a value.
- `setResult(null)` at the start of a submission: only the final state is modelled, not the intermediate renders.
- Thrown values: the source shows a caught exception as `String(e?.message || e)` (analyze.ts and form.tsx). A `Throw`'s message stands for that rendered text, not for the exception's own `message`. For an Error with an empty message the text is "Error"; the model takes the text as given and does not derive it.
