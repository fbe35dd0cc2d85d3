/** The request and response models of the Flask backend
    (web-interface/backend/models.py): each request model is a validator
    from a decoded JSON object to the typed fields or a validation error.
    Keys the models do not declare are ignored, as in the default model
    configuration. */
module RequestModels {
  import opened Wrappers
  import opened Strings

  /** A decoded JSON value. `JOther` stands for arrays and objects. */
  datatype Json = JStr(str: string) | JInt(num: int) | JFloat(number: real) | JBool(flag: bool) | JNull | JOther

  /** A number with no fractional part, such as `5.0`. */
  predicate Integral(x: real) {
    x.Floor as real == x
  }

  type JsonObject = map<string, Json>

  /** `str = Field(..., min_length=1)`: present, a string, at least one
      character long. Only the length is checked, so white space passes. */
  function RequiredText(body: JsonObject, field: string): (r: Option<string>)
    ensures r.Some? <==> field in body && body[field].JStr? && |body[field].str| >= 1
    ensures r.Some? ==> r.value == body[field].str
  {
    if field in body && body[field].JStr? && |body[field].str| >= 1 then Some(body[field].str)
    else None
  }

  /** MaterialUploadRequest and MaterialUploadPDFRequest: `text`. */
  function UploadRequest(body: JsonObject): (r: Option<string>)
    ensures r.Some? <==> "text" in body && body["text"].JStr? && body["text"].str != ""
  {
    RequiredText(body, "text")
  }

  /** MaterialSyncNameRequest, MaterialDeleteRequest, QuizDeleteRequest and
      AssignmentDeleteRequest: a required non-empty `key`. */
  function KeyRequest(body: JsonObject): (r: Option<string>)
    ensures r.Some? <==> "key" in body && body["key"].JStr? && body["key"].str != ""
    ensures r.Some? ==> r.value == body["key"].str
  {
    RequiredText(body, "key")
  }

  /** QuizGenerateRequest: a required non-empty `topic`. */
  function GenerateRequest(body: JsonObject): (r: Option<string>)
    ensures r.Some? <==> "topic" in body && body["topic"].JStr? && body["topic"].str != ""
  {
    RequiredText(body, "topic")
  }

  /** QuizSaveRequest and AssignmentSaveRequest: `xml` and `topic`, both
      required and non-empty. */
  function SaveRequest(body: JsonObject): (r: Option<(string, string)>)
    ensures r.Some? <==> RequiredText(body, "xml").Some? && RequiredText(body, "topic").Some?
    ensures r.Some? ==> r.value.0 != "" && r.value.1 != ""
    ensures r.Some? ==> r.value == (body["xml"].str, body["topic"].str)
  {
    match (RequiredText(body, "xml"), RequiredText(body, "topic"))
    case (Some(x), Some(t)) => Some((x, t))
    case _ => None
  }

  /** The default search limit. */
  const DefaultLimit := 10

  /** An integer in lax mode: a JSON integer, a boolean (as 0 or 1), a
      float without fractional part, or a numeric string. */
  function LaxInt(v: Json): (r: Option<int>)
    ensures v.JInt? ==> r == Some(v.num)
    ensures v.JBool? ==> r == Some(if v.flag then 1 else 0)
    ensures v.JFloat? ==> (r.Some? <==> Integral(v.number))
    ensures v.JFloat? && r.Some? ==> r.value as real == v.number
    ensures v.JStr? ==> r == ParseInt(v.str)
    ensures v.JNull? || v.JOther? ==> r.None?
  {
    match v
    case JInt(i) => Some(i)
    case JBool(b) => Some(if b then 1 else 0)
    case JFloat(x) => if Integral(x) then Some(x.Floor) else None
    case JStr(s) => ParseInt(s)
    case _ => None
  }

  /** MaterialSearchRequest: a non-empty `query` and `limit:
      Optional[int] = Field(10, gt=0, le=100)`. The limit is `Some(10)` when
      absent, None when sent as `null`, and otherwise must lie in 1..100. */
  function SearchRequest(body: JsonObject): (r: Option<(string, Option<int>)>)
    ensures r.Some? ==> RequiredText(body, "query") == Some(r.value.0)
    ensures r.Some? && r.value.1.Some? ==> 0 < r.value.1.value <= 100
    ensures r.Some? && "limit" !in body ==> r.value.1 == Some(DefaultLimit)
    ensures RequiredText(body, "query").None? ==> r.None?
    ensures "limit" in body && body["limit"].JInt? && !(0 < body["limit"].num <= 100) ==> r.None?
    ensures RequiredText(body, "query").Some? && "limit" !in body ==> r.Some?
    ensures r.Some? <==> (RequiredText(body, "query").Some? &&
                          ("limit" in body && !body["limit"].JNull? ==>
                             LaxInt(body["limit"]).Some? && 0 < LaxInt(body["limit"]).value <= 100))
    ensures r.Some? && "limit" in body ==>
              r.value.1 == (if body["limit"].JNull? then None else LaxInt(body["limit"]))
  {
    match RequiredText(body, "query")
    case None => None
    case Some(q) =>
      if "limit" !in body then Some((q, Some(DefaultLimit)))
      else if body["limit"].JNull? then Some((q, None))
      else match LaxInt(body["limit"])
        case Some(n) => if 0 < n <= 100 then Some((q, Some(n))) else None
        case None => None
  }

  /** The strings a boolean field accepts in lax mode, lower-cased. */
  predicate TrueWord(s: string) {
    s in {"true", "t", "yes", "y", "on", "1"}
  }

  predicate FalseWord(s: string) {
    s in {"false", "f", "no", "n", "off", "0"}
  }

  /** A boolean in lax mode: a JSON boolean, 0 or 1, 0.0 or 1.0, or one of
      the words. */
  function LaxBool(v: Json): (r: Option<bool>)
    ensures v.JBool? ==> r == Some(v.flag)
    ensures v.JInt? ==> (r.Some? <==> v.num == 0 || v.num == 1) && (r.Some? ==> (r.value <==> v.num == 1))
    ensures v.JFloat? ==> (r.Some? <==> v.number == 0.0 || v.number == 1.0) && (r.Some? ==> (r.value <==> v.number == 1.0))
    ensures v.JStr? && TrueWord(Lower(v.str)) ==> r == Some(true)
    ensures v.JStr? && FalseWord(Lower(v.str)) ==> r == Some(false)
    ensures v.JStr? && !TrueWord(Lower(v.str)) && !FalseWord(Lower(v.str)) ==> r.None?
    ensures v.JNull? || v.JOther? ==> r.None?
  {
    match v
    case JBool(b) => Some(b)
    case JInt(i) => if i == 0 then Some(false) else if i == 1 then Some(true) else None
    case JFloat(x) => if x == 0.0 then Some(false) else if x == 1.0 then Some(true) else None
    case JStr(s) =>
      var w := Lower(s);
      if TrueWord(w) then Some(true) else if FalseWord(w) then Some(false) else None
    case _ => None
  }

  /** SyncAllMaterialsRequest: `force_rename: Optional[bool] = False`.
      The result is the flag as the route tests it (`if force_rename`), so
      an absent or `null` field reads as false. */
  function SyncAllRequest(body: JsonObject): (r: Option<bool>)
    ensures "force_rename" !in body ==> r == Some(false)
    ensures "force_rename" in body && body["force_rename"].JNull? ==> r == Some(false)
    ensures "force_rename" in body && body["force_rename"].JBool? ==> r == Some(body["force_rename"].flag)
    ensures "force_rename" in body && body["force_rename"].JOther? ==> r.None?
    ensures "force_rename" in body && !body["force_rename"].JNull? ==> r == LaxBool(body["force_rename"])
  {
    if "force_rename" !in body then Some(false)
    else if body["force_rename"].JNull? then Some(false)
    else LaxBool(body["force_rename"])
  }

  /** What a route makes of its JSON body before any store access. */
  datatype Body<T> = NoJson | Rejected | Accepted(value: T)

  /** `json_data = request.get_json(); if not json_data: 400`, then the
      model: a missing or empty object and a validation error are the two
      400 answers. */
  function ReadBody<T>(body: Option<JsonObject>, validate: JsonObject -> Option<T>): (r: Body<T>)
    ensures r.NoJson? <==> body.None? || body.value == map[]
    ensures r.Accepted? ==> validate(body.value) == Some(r.value)
    ensures r.Rejected? ==> validate(body.value).None?
  {
    if body.None? || body.value == map[] then NoJson
    else match validate(body.value)
      case None => Rejected
      case Some(v) => Accepted(v)
  }

  /** The JSON reply envelope of SuccessResponse and ErrorResponse. */
  datatype Reply = Reply(success: bool, message: Option<string>, error: Option<string>, details: Option<seq<string>>)

  /** `SuccessResponse(message=...)`: success is always true. */
  function SuccessResponse(message: Option<string>): (r: Reply)
    ensures r.success && r.message == message && r.error.None?
  {
    Reply(true, message, None, None)
  }

  /** `ErrorResponse(error=..., details=...)`: success is always false and
      the details default to None. */
  function ErrorResponse(error: string, details: Option<seq<string>>): (r: Reply)
    ensures !r.success && r.error == Some(error) && r.details == details && r.message.None?
  {
    Reply(false, None, Some(error), details)
  }
}
