/** The response reconciler of the analysis endpoint: recover a JSON value from the model's
    text, then coerce an object into the result schema (summary, risk_level, confidence,
    red_flags, inconsistencies, next_steps). */
module Reconciler {
  import opened Wrappers
  import opened JsValues
  import opened JsStrings

  const RiskLevels: set<string> := {"low", "medium", "high"}

  const ListKeys: set<string> := {"red_flags", "inconsistencies", "next_steps"}

  /** The six fields of the result schema */
  const SchemaKeys: set<string> :=
    {"confidence", "red_flags", "inconsistencies", "next_steps", "summary", "risk_level"}

  /** The text from the first '{' to the last '}', both included, when that '}' comes after
      that '{': the candidate tried once strict parsing has failed */
  function SalvageCandidate(text: string): (r: Option<string>)
    // a candidate exists exactly when some '{' precedes some '}'
    ensures r.Some? <==> exists i, j :: 0 <= i < j < |text| && text[i] == '{' && text[j] == '}'
    ensures r.Some? ==> |r.value| >= 2 && r.value[0] == '{' && r.value[|r.value| - 1] == '}'
    // it is a piece of the text with no '{' before it and no '}' after it
    ensures r.Some? ==> exists i :: OutermostAt(text, r.value, i)
  {
    var start := IndexOf(text, '{');
    var end := LastIndexOf(text, '}');
    if start != -1 && end != -1 && end > start then
      CandidatePiece(text, start, end);
      assert text[start] == '{' && text[end] == '}';
      Some(text[start..end + 1])
    else
      BracePairFound(text);
      None
  }

  /** `piece` occurs in `text` at `i` with no '{' before it and no '}' after it */
  predicate OutermostAt(text: string, piece: string, i: int) {
    OccursAt(text, piece, i) && '{' !in text[..i] && '}' !in text[i + |piece|..]
  }

  /** The piece from the first '{' to the last '}' */
  lemma CandidatePiece(text: string, start: int, end: int)
    requires start == IndexOf(text, '{') && end == LastIndexOf(text, '}')
    requires 0 <= start < end
    ensures var c := text[start..end + 1];
      && |c| >= 2 && c[0] == '{' && c[|c| - 1] == '}'
      && exists i :: OutermostAt(text, c, i)
  {
    assert OutermostAt(text, text[start..end + 1], start);
  }

  /** Some '{' before some '}' is exactly what the guard of `handler` in analyze.ts, line
      120, detects */
  lemma BracePairFound(text: string)
    ensures (exists i, j :: 0 <= i < j < |text| && text[i] == '{' && text[j] == '}') <==>
      (IndexOf(text, '{') != -1 && LastIndexOf(text, '}') != -1
       && LastIndexOf(text, '}') > IndexOf(text, '{'))
  {
    var start := IndexOf(text, '{');
    var end := LastIndexOf(text, '}');
    if exists i, j :: 0 <= i < j < |text| && text[i] == '{' && text[j] == '}' {
      var i, j :| 0 <= i < j < |text| && text[i] == '{' && text[j] == '}';
      assert '{' in text && '}' in text;
    }
    if start != -1 && end != -1 && end > start {
      assert 0 <= start < end < |text| && text[start] == '{' && text[end] == '}';
    }
  }

  /** Any text made of a prefix without '{', a piece from '{' to '}', and a suffix without
      '}' has that piece as its candidate, as in prose wrapped around a JSON object */
  lemma SalvageDecomposition(pre: string, mid: string, post: string)
    requires '{' !in pre && '}' !in post
    requires |mid| >= 2 && mid[0] == '{' && mid[|mid| - 1] == '}'
    ensures SalvageCandidate(pre + mid + post) == Some(mid)
  {
    var text := pre + mid + post;
    var first := |pre|;
    var last := |pre| + |mid| - 1;
    assert text[..first] == pre;
    assert text[last + 1..] == post;
    assert text[first] == '{' && text[last] == '}';
    assert IndexOf(text, '{') == first;
    assert LastIndexOf(text, '}') == last;
    assert text[first..last + 1] == mid;
  }

  /** `handler` in analyze.ts, lines 114-127: JSON.parse, then the salvage candidate, then
      null */
  function ParseModelText(text: string, parse: string -> Option<Json>): (parsed: Json)
    // a strict parse, when it succeeds, is taken as it is: salvage is never attempted
    ensures parse(text).Some? ==> parsed == parse(text).value
    // otherwise the result is the parse of the candidate, or null
    ensures parse(text).None? ==>
      var c := SalvageCandidate(text);
      parsed == if c.Some? && parse(c.value).Some? then parse(c.value).value else JNull
  {
    match parse(text)
    case Some(v) => v
    case None =>
      match SalvageCandidate(text)
      case None => JNull
      case Some(candidate) => parse(candidate).GetOr(JNull)
  }

  /** Math.max(a, b) and Math.min(a, b) on finite numbers */
  function Max(a: real, b: real): real { if a >= b then a else b }
  function Min(a: real, b: real): real { if a <= b then a else b }

  /** Math.max(0, Math.min(1, n)): the point of [0, 1] nearest to `n` */
  function Clamp(n: real): (r: real)
    ensures 0.0 <= r <= 1.0
    ensures 0.0 <= n <= 1.0 ==> r == n
    ensures n < 0.0 ==> r == 0.0
    ensures n > 1.0 ==> r == 1.0
  {
    Max(0.0, Min(1.0, n))
  }

  /** `handler` in analyze.ts, lines 131-132: the number the confidence becomes: 0 unless
      Number(...) of it is finite */
  function Confidence(v: Option<Json>, b: Builtins): (r: Completion<real>)
    ensures r.Normal? ==> 0.0 <= r.value <= 1.0
    ensures v.Some? && v.value.JNum? && v.value.num.Finite? ==> r == Normal(Clamp(v.value.num.r))
    ensures v.None? || (v.Some? && v.value.JNum? && !v.value.num.Finite?) ==> r == Normal(0.0)
    ensures v.None? || !(v.value.JArr? || v.value.JObj?) ==> r.Normal?
    // every other value goes through Number(...) the same way
    ensures v == Some(JNull) ==> r == Normal(0.0)
    ensures v.Some? && v.value.JBool? ==> r == Normal(if v.value.b then 1.0 else 0.0)
    ensures v.Some? && v.value.JStr? ==>
      var n := b.stringToNumber(v.value.s);
      r == Normal(if n.Finite? then Clamp(n.r) else 0.0)
    ensures v.Some? && (v.value.JArr? || v.value.JObj?) ==>
      && (r.Throw? <==> b.objectToNumber(v.value).Throw?)
      && (r.Throw? ==> r.message == b.objectToNumber(v.value).message)
      && (r.Normal? ==> var n := b.objectToNumber(v.value).value;
            r.value == if n.Finite? then Clamp(n.r) else 0.0)
  {
    var n :- ToNumber(v, b);
    Normal(if n.Finite? then Clamp(n.r) else 0.0)
  }

  function Get(m: map<string, Json>, key: string): Option<Json> {
    if key in m then Some(m[key]) else None
  }

  predicate IsList(v: Option<Json>) {
    v.Some? && v.value.JArr?
  }

  predicate IsText(v: Option<Json>) {
    v.Some? && v.value.JStr?
  }

  /** `["low", "medium", "high"].includes(v)`: strict equality, so only those three strings */
  predicate IsRiskLevel(v: Option<Json>) {
    v.Some? && v.value.JStr? && v.value.s in RiskLevels
  }

  predicate IsConfidence(v: Option<Json>) {
    v.Some? && v.value.JNum? && v.value.num.Finite? && 0.0 <= v.value.num.r <= 1.0
  }

  /** The result schema: every field present with the right type */
  predicate Conforms(m: map<string, Json>) {
    && IsConfidence(Get(m, "confidence"))
    && IsList(Get(m, "red_flags"))
    && IsList(Get(m, "inconsistencies"))
    && IsList(Get(m, "next_steps"))
    && IsText(Get(m, "summary"))
    && IsRiskLevel(Get(m, "risk_level"))
  }

  /** `handler` in analyze.ts, lines 134-136 for one field: an existing array stays,
      anything else becomes [] */
  function EnsureList(m: map<string, Json>, key: string): (r: map<string, Json>)
    ensures r.Keys == m.Keys + {key}
    ensures Get(r, key) == if IsList(Get(m, key)) then Get(m, key) else Some(JArr([]))
    ensures forall k :: k != key ==> Get(r, k) == Get(m, k)
  {
    if IsList(Get(m, key)) then m else m[key := JArr([])]
  }


  /** `handler` in analyze.ts, lines 134-136 */
  function EnsureLists(m: map<string, Json>): (r: map<string, Json>)
    ensures r.Keys == m.Keys + ListKeys
    ensures forall k :: k in ListKeys ==>
      Get(r, k) == if IsList(Get(m, k)) then Get(m, k) else Some(JArr([]))
    ensures forall k :: k !in ListKeys ==> Get(r, k) == Get(m, k)
  {
    EnsureList(EnsureList(EnsureList(m, "red_flags"), "inconsistencies"), "next_steps")
  }

  /** `handler` in analyze.ts, line 138: an existing string stays, anything else is coerced
      by `String(v || "")` */
  function SummaryText(v: Option<Json>, b: Builtins): (r: Completion<string>)
    ensures IsText(v) ==> r == Normal(v.value.s)
    ensures !IsCompound(v) ==> r.Normal?
  {
    if IsText(v) then Normal(v.value.s) else ToStrOrEmpty(v, b)
  }

  /** `handler` in analyze.ts, lines 139-141: anything but the three levels becomes "medium" */
  function EnsureRiskLevel(m: map<string, Json>): (r: map<string, Json>)
    ensures r.Keys == m.Keys + {"risk_level"}
    ensures Get(r, "risk_level") ==
      if IsRiskLevel(Get(m, "risk_level")) then Get(m, "risk_level") else Some(JStr("medium"))
    ensures forall k :: k != "risk_level" ==> Get(r, k) == Get(m, k)
  {
    if IsRiskLevel(Get(m, "risk_level")) then m else m["risk_level" := JStr("medium")]
  }

  /** An array or an object: the only values whose coercion can throw */
  predicate IsCompound(v: Option<Json>) {
    v.Some? && (v.value.JArr? || v.value.JObj?)
  }

  /** `handler` in analyze.ts, line 132, the assignment: `confidence` replaces whatever was
      there */
  function SetConfidence(m: map<string, Json>, confidence: real): (r: map<string, Json>)
    ensures r.Keys == m.Keys + {"confidence"}
    ensures Get(r, "confidence") == Some(JNum(Finite(confidence)))
    ensures forall k :: k != "confidence" ==> Get(r, k) == Get(m, k)
  {
    m["confidence" := JNum(Finite(confidence))]
  }

  /** `handler` in analyze.ts, line 138, the assignment: `text` replaces whatever was there */
  function SetSummary(m: map<string, Json>, text: string): (r: map<string, Json>)
    ensures r.Keys == m.Keys + {"summary"}
    ensures Get(r, "summary") == Some(JStr(text))
    ensures forall k :: k != "summary" ==> Get(r, k) == Get(m, k)
  {
    m["summary" := JStr(text)]
  }

  /** `handler` in analyze.ts, lines 132-136 */
  function RebuildHead(m: map<string, Json>, confidence: real): (r: map<string, Json>)
    ensures r.Keys == m.Keys + {"confidence"} + ListKeys
    ensures Get(r, "confidence") == Some(JNum(Finite(confidence)))
    ensures forall k :: k in ListKeys ==>
      Get(r, k) == if IsList(Get(m, k)) then Get(m, k) else Some(JArr([]))
    ensures forall k :: k != "confidence" && k !in ListKeys ==> Get(r, k) == Get(m, k)
  {
    EnsureLists(SetConfidence(m, confidence))
  }

  /** `handler` in analyze.ts, lines 138-141 */
  function RebuildTail(m: map<string, Json>, text: string): (r: map<string, Json>)
    ensures r.Keys == m.Keys + {"summary", "risk_level"}
    ensures Get(r, "summary") == Some(JStr(text))
    ensures Get(r, "risk_level") ==
      if IsRiskLevel(Get(m, "risk_level")) then Get(m, "risk_level") else Some(JStr("medium"))
    ensures forall k :: k != "summary" && k != "risk_level" ==> Get(r, k) == Get(m, k)
  {
    EnsureRiskLevel(SetSummary(m, text))
  }

  /** `handler` in analyze.ts, lines 132-141 once the two coercions have been computed: the
      confidence has become `confidence` and a non-string summary has become `text` */
  function Rebuild(m: map<string, Json>, confidence: real, text: string): map<string, Json> {
    RebuildTail(RebuildHead(m, confidence), text)
  }

  /** `Rebuild` adds the schema keys and leaves every other key alone */
  lemma RebuildFrame(m: map<string, Json>, confidence: real, text: string)
    ensures Rebuild(m, confidence, text).Keys == m.Keys + SchemaKeys
    ensures forall k :: k !in SchemaKeys ==> Get(Rebuild(m, confidence, text), k) == Get(m, k)
  {
    assert SchemaKeys == {"confidence"} + ListKeys + {"summary", "risk_level"};
  }

  /** The confidence after `Rebuild` */
  lemma RebuildConfidence(m: map<string, Json>, confidence: real, text: string)
    ensures Get(Rebuild(m, confidence, text), "confidence") == Some(JNum(Finite(confidence)))
  {
    assert "summary" != "confidence" && "risk_level" != "confidence";
  }

  /** The list fields after `Rebuild` */
  lemma RebuildLists(m: map<string, Json>, confidence: real, text: string)
    ensures forall k :: k in ListKeys ==>
      Get(Rebuild(m, confidence, text), k) == if IsList(Get(m, k)) then Get(m, k) else Some(JArr([]))
  {
    assert "summary" !in ListKeys && "risk_level" !in ListKeys;
  }

  /** The summary and the risk level after `Rebuild` */
  lemma RebuildText(m: map<string, Json>, confidence: real, text: string)
    ensures Get(Rebuild(m, confidence, text), "summary") == Some(JStr(text))
    ensures Get(Rebuild(m, confidence, text), "risk_level") ==
      if IsRiskLevel(Get(m, "risk_level")) then Get(m, "risk_level") else Some(JStr("medium"))
  {
    var head := RebuildHead(m, confidence);
    assert "risk_level" != "confidence" && "risk_level" !in ListKeys;
    assert Get(head, "risk_level") == Get(m, "risk_level");
  }

  /** `handler` in analyze.ts, lines 131-141 on an object */
  function NormalizeFields(m: map<string, Json>, b: Builtins): (r: Completion<map<string, Json>>)
    ensures r.Normal? ==> Conforms(r.value)
    // keys outside the schema are untouched; schema keys are always present afterwards
    ensures r.Normal? ==> r.value.Keys == m.Keys + SchemaKeys
    ensures r.Normal? ==> forall k :: k !in SchemaKeys ==> Get(r.value, k) == Get(m, k)
    // values that already have the right shape are kept; the rest get the defaults
    ensures r.Normal? ==> forall k :: k in ListKeys ==>
      Get(r.value, k) == if IsList(Get(m, k)) then Get(m, k) else Some(JArr([]))
    ensures r.Normal? && IsText(Get(m, "summary")) ==> r.value["summary"] == m["summary"]
    ensures r.Normal? ==> (Get(r.value, "risk_level") ==
      if IsRiskLevel(Get(m, "risk_level")) then Get(m, "risk_level") else Some(JStr("medium")))
    ensures r.Normal? && IsConfidence(Get(m, "confidence")) ==>
      r.value["confidence"] == m["confidence"]
    // the confidence becomes Number(old confidence) clamped to [0, 1], or 0 when not finite
    ensures r.Normal? ==>
      && Confidence(Get(m, "confidence"), b).Normal?
      && r.value["confidence"] == JNum(Finite(Confidence(Get(m, "confidence"), b).value))
    // a summary that is not a string becomes String(summary || "")
    ensures r.Normal? && !IsText(Get(m, "summary")) ==>
      && ToStrOrEmpty(Get(m, "summary"), b).Normal?
      && r.value["summary"] == JStr(ToStrOrEmpty(Get(m, "summary"), b).value)
    // it throws exactly when one of the two coercions throws, and only on an array or object
    ensures r.Throw? <==>
      Confidence(Get(m, "confidence"), b).Throw? || SummaryText(Get(m, "summary"), b).Throw?
    ensures r.Throw? ==> IsCompound(Get(m, "confidence")) || IsCompound(Get(m, "summary"))
  {
    var confidence :- Confidence(Get(m, "confidence"), b);
    var text :- SummaryText(Get(m, "summary"), b);
    var r := Rebuild(m, confidence, text);
    RebuildFrame(m, confidence, text);
    RebuildConfidence(m, confidence, text);
    RebuildLists(m, confidence, text);
    RebuildText(m, confidence, text);
    assert Conforms(r);
    Normal(r)
  }

  /** The confidence coercion on the values the schema's `number` field tends to carry:
      2 becomes 1, -3 becomes 0, NaN becomes 0, and a string `Number` cannot read becomes 0 */
  lemma ConfidenceExamples(b: Builtins)
    ensures Confidence(Some(JNum(Finite(2.0))), b) == Normal(1.0)
    ensures Confidence(Some(JNum(Finite(-3.0))), b) == Normal(0.0)
    ensures Confidence(Some(JNum(Finite(0.4))), b) == Normal(0.4)
    ensures Confidence(Some(JNum(NaN)), b) == Normal(0.0)
    ensures Confidence(None, b) == Normal(0.0)
    ensures b.stringToNumber("abc") == NaN ==> Confidence(Some(JStr("abc")), b) == Normal(0.0)
    ensures b.stringToNumber("0.8") == Finite(0.8) ==> Confidence(Some(JStr("0.8")), b) == Normal(0.8)
    ensures b.stringToNumber("7") == Finite(7.0) ==> Confidence(Some(JStr("7")), b) == Normal(1.0)
    ensures Confidence(Some(JNull), b) == Normal(0.0)
    ensures Confidence(Some(JBool(true)), b) == Normal(1.0)
    ensures Confidence(Some(JBool(false)), b) == Normal(0.0)
  {
  }

  /** An object whose confidence is 2 and whose summary is a string is normalised without
      an exception, and its confidence becomes 1 */
  lemma OutOfRangeConfidence(m: map<string, Json>, b: Builtins)
    requires Get(m, "confidence") == Some(JNum(Finite(2.0)))
    requires IsText(Get(m, "summary"))
    ensures NormalizeFields(m, b).Normal?
    ensures NormalizeFields(m, b).value["confidence"] == JNum(Finite(1.0))
  {
    assert Confidence(Get(m, "confidence"), b) == Normal(1.0);
  }

  /** `handler` in analyze.ts, lines 130-142 on an array or an object, the values that pass
      the guard at line 130. Properties assigned to an array do not appear in the JSON it
      serialises to, and the coercions cannot throw on an array's missing properties, so an
      array comes back as is. */
  function Normalize(v: Json, b: Builtins): (r: Completion<Json>)
    requires v.JArr? || v.JObj?
    ensures v.JArr? ==> r == Normal(v)
    ensures v.JObj? ==> r.Normal? == NormalizeFields(v.fields, b).Normal?
    ensures v.JObj? && r.Normal? ==> r.value.JObj? && Conforms(r.value.fields)
  {
    match v
    case JArr(_) => Normal(v)
    case JObj(m) =>
      var fields :- NormalizeFields(m, b);
      Normal(JObj(fields))
  }

  /** An object is left as it is exactly when it already conforms to the schema */
  lemma NormalizeFixedPoint(m: map<string, Json>, b: Builtins)
    ensures NormalizeFields(m, b) == Normal(m) <==> Conforms(m)
  {
    if Conforms(m) {
      var c := m["confidence"];
      assert Confidence(Get(m, "confidence"), b) == Normal(c.num.r);
      var m1 := m["confidence" := JNum(Finite(c.num.r))];
      assert m1 == m;
      assert EnsureLists(m1) == m1;
      var m3 := m1["summary" := JStr(m["summary"].s)];
      assert m3 == m;
    }
  }

  /** Normalising twice is normalising once */
  lemma NormalizeIdempotent(v: Json, b: Builtins)
    requires v.JArr? || v.JObj?
    requires Normalize(v, b).Normal?
    ensures Normalize(Normalize(v, b).value, b) == Normalize(v, b)
  {
    if v.JObj? {
      NormalizeFixedPoint(Normalize(v, b).value.fields, b);
    }
  }

  /** `handler` in analyze.ts, line 130: only a truthy array or object is normalised; null,
      false, 0, "" and truthy numbers, strings and booleans pass through as they are */
  function Reconcile(parsed: Json, b: Builtins): (r: Completion<Json>)
    ensures !(Truthy(parsed) && IsObjectType(parsed)) ==> r == Normal(parsed)
    ensures r.Normal? ==> Truthy(r.value) == Truthy(parsed)
    ensures parsed.JObj? && r.Normal? ==> r.value.JObj? && Conforms(r.value.fields)
  {
    if Truthy(parsed) && IsObjectType(parsed) then Normalize(parsed, b) else Normal(parsed)
  }

  /** Text with no '{' before a '}' that strict parsing rejects yields null */
  lemma NoBracesNoData(text: string, parse: string -> Option<Json>)
    requires parse(text).None?
    requires !exists i, j :: 0 <= i < j < |text| && text[i] == '{' && text[j] == '}'
    ensures ParseModelText(text, parse) == JNull
  {
  }
}
