/**
 * The tail of the analysis service's request handler: the model's raw reply
 * is stripped of Markdown code fences and surrounding whitespace, parsed as
 * JSON, and shaped into an `AnalysisResponse`; every exception raised on the
 * way becomes an error text instead of escaping.
 *
 * `json.loads` and the pydantic validations are not re-implemented: they are
 * supplied as a `Parsers` value whose functions return the parsed value or
 * the text `str(e)` of the exception they raise.
 */
module Service {
  import opened Wrappers
  import opened Text
  import opened Schemas

  /** A Markdown code fence. */
  const Fence := "```"
  /** A Markdown code fence announcing JSON. */
  const JsonFence := "```json"
  /** Prefix of every response built from a caught exception. */
  const ErrorPrefix := "Error parsing Gemini response: "

  /** A value `json.loads` can return. JSON numbers become `int` or `float`. */
  datatype Json =
    | JNull
    | JBool(b: bool)
    | JInt(i: int)
    | JFloat(f: real)
    | JString(s: string)
    | JArray(items: seq<Json>)
    | JObject(fields: map<string, Json>)

  /** The collaborators the handler calls but does not define. */
  datatype Parsers = Parsers(
    // json.loads(content)
    loads: string -> Result<Json, string>,
    // CorepFieldUpdate(**fields): pydantic validation of the four update fields
    update: map<string, Json> -> Result<FieldUpdate, string>,
    // AnalysisResponse(response_text=v, ...): pydantic validation of `response_text: str`
    text: Json -> Result<string, string>)

  // ---------------------------------------------------------------------------
  // Fence removal

  /** If what remains after removing fences starts with two backticks, so did the input. */
  lemma FenceFreeHeadPair(t: string)
    requires |RemoveAll(t, Fence)| >= 2
    requires RemoveAll(t, Fence)[0] == '`' && RemoveAll(t, Fence)[1] == '`'
    ensures |t| >= 2 && t[0] == '`' && t[1] == '`'
  {
  }

  /** Removing every fence leaves no fence behind, although removal joins the text around each one. */
  lemma {:induction false} RemoveFencesLeavesNone(s: string)
    ensures !Contains(RemoveAll(s, Fence), Fence)
    decreases |s|
  {
    var r := RemoveAll(s, Fence);
    if |s| < |Fence| {
      if Contains(r, Fence) { ContainsIsShorter(r, Fence); }
    } else if Fence <= s {
      RemoveFencesLeavesNone(s[|Fence|..]);
    } else {
      var rest := RemoveAll(s[1..], Fence);
      assert r == [s[0]] + rest;
      RemoveFencesLeavesNone(s[1..]);
      assert r[1..] == rest;
      if Fence <= r {
        FenceFreeHeadPair(s[1..]);
        assert false;
      }
    }
  }

  /** Every JSON fence is also a plain fence. */
  lemma JsonFenceIsFence(s: string)
    ensures Contains(s, JsonFence) ==> Contains(s, Fence)
  {
    if Contains(s, JsonFence) {
      assert JsonFence == Fence + "json";
      ContainsLonger(s, Fence, "json");
    }
  }

  /** Both `replace` calls: every "```json", then every remaining "```", removed. */
  function Unfence(raw: string): (r: string)
    ensures !Contains(r, Fence)
    ensures !Contains(raw, Fence) ==> r == raw
  {
    JsonFenceIsFence(raw);
    RemoveFencesLeavesNone(RemoveAll(raw, JsonFence));
    RemoveAll(RemoveAll(raw, JsonFence), Fence)
  }

  /** Stripping keeps fence-freedom, and strips an untouched reply as it stands. */
  lemma StripAfterUnfence(unfenced: string, raw: string, ws: set<char>)
    requires !Contains(unfenced, Fence)
    requires !Contains(raw, Fence) ==> unfenced == raw
    ensures !Contains(Trim(unfenced, ws), Fence)
    ensures !Contains(raw, Fence) ==> Trim(unfenced, ws) == Trim(raw, ws)
  {
    TrimKeepsAbsence(unfenced, ws, Fence);
  }

  /**
   * The content the handler parses: both fence spellings removed, then
   * Python's `strip()`.
   */
  function Clean(raw: string): (content: string)
    ensures !Contains(content, Fence)
    ensures content == [] || (content[0] !in PyWhitespace && content[|content| - 1] !in PyWhitespace)
    // a reply without fences is only stripped
    ensures !Contains(raw, Fence) ==> content == Trim(raw, PyWhitespace)
  {
    var unfenced := Unfence(raw);
    StripAfterUnfence(unfenced, raw, PyWhitespace);
    Trim(unfenced, PyWhitespace)
  }

  /** A fence-free text followed by a closing fence holds no JSON fence. */
  lemma {:induction false} NoJsonFenceBeforeClosing(x: string)
    requires !Contains(x, Fence)
    ensures !Contains(x + Fence, JsonFence)
    decreases |x|
  {
    var s := x + Fence;
    assert JsonFence[..|Fence|] == Fence;
    assert |x| >= |Fence| ==> x[..|Fence|] == s[..|Fence|];
    if JsonFence <= s {
      // the JSON fence would begin with a fence inside `x`
      assert false;
    }
    if |x| == 0 {
      if Contains(s[1..], JsonFence) { ContainsIsShorter(s[1..], JsonFence); }
    } else {
      NoJsonFenceBeforeClosing(x[1..]);
      assert s[1..] == x[1..] + Fence;
    }
  }

  /** Removing fences from a fence-free text and its closing fence gives back the text. */
  lemma {:induction false} RemoveClosingFence(x: string)
    requires !Contains(x, Fence)
    ensures RemoveAll(x + Fence, Fence) == x
    decreases |x|
  {
    var s := x + Fence;
    if Fence <= s {
      if |x| >= |Fence| {
        // the fence would begin inside `x`
        assert false;
      }
      // `x` is one or two backticks, which the closing fence's tail gives back
      assert s[|Fence|..] == x by {
        if |x| == 1 { assert x[0] == s[0] == '`'; }
        if |x| == 2 { assert x[0] == s[0] == '`' && x[1] == s[1] == '`'; }
      }
    } else {
      assert |x| > 0;
      RemoveClosingFence(x[1..]);
      assert s[1..] == x[1..] + Fence;
      assert [x[0]] + x[1..] == x;
    }
  }

  /**
   * A fence-free payload wrapped in a JSON code fence comes out of the
   * cleanup as the payload itself, stripped.
   */
  lemma FencedReplyKeepsPayload(x: string)
    requires !Contains(x, Fence)
    ensures Unfence(JsonFence + x + Fence) == x
    ensures Clean(JsonFence + x + Fence) == Trim(x, PyWhitespace)
  {
    var s := JsonFence + x + Fence;
    assert JsonFence <= s;
    assert s[|JsonFence|..] == x + Fence;
    NoJsonFenceBeforeClosing(x);
    assert RemoveAll(s, JsonFence) == x + Fence;
    RemoveClosingFence(x);
  }

  /** Content without fences and without border whitespace is already clean. */
  lemma CleanFixedPoint(c: string)
    requires !Contains(c, Fence)
    requires c == [] || (c[0] !in PyWhitespace && c[|c| - 1] !in PyWhitespace)
    ensures Clean(c) == c
  {
    TrimUnbordered(c, PyWhitespace);
  }

  /** Cleaning cleaned content changes nothing. */
  lemma CleanIdempotent(raw: string)
    ensures Clean(Clean(raw)) == Clean(raw)
  {
    CleanFixedPoint(Clean(raw));
  }

  // ---------------------------------------------------------------------------
  // Python semantics the handler relies on

  /** Python's truth value of a parsed JSON value. */
  predicate Truthy(j: Json)
  {
    match j
    case JNull => false
    case JBool(b) => b
    case JInt(i) => i != 0
    case JFloat(f) => f != 0.0
    case JString(s) => s != ""
    case JArray(items) => items != []
    case JObject(fields) => fields != map[]
  }

  /** The name of the Python type `json.loads` produces for `j`. */
  function TypeName(j: Json): string
  {
    match j
    case JNull => "NoneType"
    case JBool(_) => "bool"
    case JInt(_) => "int"
    case JFloat(_) => "float"
    case JString(_) => "str"
    case JArray(_) => "list"
    case JObject(_) => "dict"
  }

  /**
   * The TypeError the handler's first look into a non-dict `data` raises:
   * `"data_update" in data` for scalars, `data[...]` for strings and lists.
   */
  function NotADictError(data: Json): string
  {
    match data
    case JString(_) => "string indices must be integers, not 'str'"
    case JArray(_) => "list indices must be integers or slices, not str"
    case _ => "argument of type '" + TypeName(data) + "' is not iterable"
  }

  /** The `data_update` key is present with a truthy value. */
  predicate UpdateRequested(fields: map<string, Json>)
  {
    "data_update" in fields && Truthy(fields["data_update"])
  }

  /** `CorepFieldUpdate(**v)`: unpacking demands a mapping, then pydantic validates it. */
  function ValidateUpdate(v: Json, p: Parsers): Result<FieldUpdate, string>
  {
    match v
    case JObject(fields) => p.update(fields)
    case _ => Failure("schemas.CorepFieldUpdate() argument after ** must be a mapping, not " + TypeName(v))
  }

  /** `data["response_text"]`, validated as the response's text: a KeyError when absent. */
  function ResponseText(fields: map<string, Json>, p: Parsers): Result<string, string>
  {
    if "response_text" in fields then p.text(fields["response_text"]) else Failure("'response_text'")
  }

  /**
   * The branch on the parsed value: `Success` when it returns, `Failure(str(e))`
   * when it raises.
   */
  function ShapeParsed(data: Json, p: Parsers): (r: Result<AnalysisResponse, string>)
    // soundness: a returned response is made of validated parts
    ensures r.Success? ==> data.JObject? && "response_text" in data.fields
                           && p.text(data.fields["response_text"]) == Success(r.value.response_text)
    ensures r.Success? ==> (r.value.data_update.Some? <==> UpdateRequested(data.fields))
    ensures r.Success? && r.value.data_update.Some? ==>
              data.fields["data_update"].JObject?
              && p.update(data.fields["data_update"].fields) == Success(r.value.data_update.value)
    // completeness: whenever every part validates, a response is returned
    ensures data.JObject? && "response_text" in data.fields && p.text(data.fields["response_text"]).Success?
            && (UpdateRequested(data.fields) ==>
                  data.fields["data_update"].JObject? && p.update(data.fields["data_update"].fields).Success?)
            ==> r.Success?
    // the error raised by each failing step
    ensures !data.JObject? ==> r == Failure(NotADictError(data))
    ensures data.JObject? && !UpdateRequested(data.fields) && "response_text" !in data.fields ==>
              r == Failure("'response_text'")
    // with an update requested, the update is validated before `response_text` is read
    ensures data.JObject? && UpdateRequested(data.fields)
            && ValidateUpdate(data.fields["data_update"], p).Failure? ==>
              r == Failure(ValidateUpdate(data.fields["data_update"], p).error)
    ensures data.JObject? && UpdateRequested(data.fields)
            && ValidateUpdate(data.fields["data_update"], p).Success? && "response_text" !in data.fields ==>
              r == Failure("'response_text'")
    ensures data.JObject? && "response_text" in data.fields && p.text(data.fields["response_text"]).Failure?
            && (!UpdateRequested(data.fields) || ValidateUpdate(data.fields["data_update"], p).Success?) ==>
              r == Failure(p.text(data.fields["response_text"]).error)
  {
    match data
    case JObject(fields) =>
      if UpdateRequested(fields) then
        (match ValidateUpdate(fields["data_update"], p)
         case Failure(e) => Failure(e)
         case Success(update) =>
           (match ResponseText(fields, p)
            case Failure(e) => Failure(e)
            case Success(text) => Success(AnalysisResponse(text, Some(update)))))
      else
        (match ResponseText(fields, p)
         case Failure(e) => Failure(e)
         case Success(text) => Success(AnalysisResponse(text, None)))
    case _ => Failure(NotADictError(data))
  }

  /** The body of the `try`: clean, parse, shape. */
  function TryShape(raw: string, p: Parsers): Result<AnalysisResponse, string>
  {
    match p.loads(Clean(raw))
    case Failure(e) => Failure(e)
    case Success(data) => ShapeParsed(data, p)
  }

  /**
   * The handler's reply to an exception: the error's text after a fixed prefix,
   * from which the text can be read back, and no update.
   */
  function ErrorReply(e: string): (r: AnalysisResponse)
    ensures r.data_update.None?
    ensures ErrorPrefix <= r.response_text && r.response_text[|ErrorPrefix|..] == e
  {
    AnalysisResponse(ErrorPrefix + e, None)
  }

  /** The whole `try`/`except`: a response is always returned; an exception becomes its error text. */
  function GetRagResponseTail(raw: string, p: Parsers): (r: AnalysisResponse)
    // a parse error is reported with its message, and nothing is written
    ensures var parsed := p.loads(Clean(raw));
            parsed.Failure? ==> r == ErrorReply(parsed.error)
    // a parsed value that shapes is returned unchanged
    ensures var parsed := p.loads(Clean(raw));
            parsed.Success? && ShapeParsed(parsed.value, p).Success? ==> r == ShapeParsed(parsed.value, p).value
    // a parsed value that does not shape is reported with the shaping error, and nothing is written
    ensures var parsed := p.loads(Clean(raw));
            parsed.Success? && ShapeParsed(parsed.value, p).Failure? ==> r == ErrorReply(ShapeParsed(parsed.value, p).error)
    // an update reaches the client only from a cleaned, parsed and validated reply
    ensures var parsed := p.loads(Clean(raw));
            r.data_update.Some? ==> parsed.Success? && ShapeParsed(parsed.value, p) == Success(r)
  {
    match TryShape(raw, p)
    case Success(resp) => resp
    case Failure(e) => ErrorReply(e)
  }
}
