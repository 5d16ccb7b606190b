/** The triage of an HTTP response in `send_request` (src/main.rs): how the response text
    becomes the JSON body that is printed, and when the call counts as a success. */
module Response {
  import opened Wrappers
  import opened Text
  import opened JsonValue

  /** The response body: `null` for a text that is empty or only whitespace, the parsed
      JSON when the text is JSON, and otherwise the text itself as a string. */
  function ResponseBody(lib: JsonLib, text: string): (body: Json)
    ensures AllWhitespace(text) ==> body == Null
    ensures !AllWhitespace(text) && lib.fromStr(text).None? ==> body == Str(text)
  {
    if Trim(text) == [] then Null
    else match lib.fromStr(text)
      case Some(v) => v
      case None => Str(text)
  }

  /** A text is only whitespace exactly when trimming leaves nothing. */
  lemma TrimEmpty(s: string)
    ensures Trim(s) == [] <==> AllWhitespace(s)
  {
    TrimStartAll(s);
  }

  lemma {:induction false} TrimStartAll(s: string)
    ensures TrimStart(s) == [] <==> AllWhitespace(s)
  {
    if s != [] && IsWhitespace(s[0]) {
      TrimStartAll(s[1..]);
    }
  }

  /** No response text is lost: a text that is not JSON reaches the output verbatim, and
      a body is `null` only for a blank text or the JSON text `null`. */
  lemma ResponseBodyTotal(lib: JsonLib, text: string)
    ensures ResponseBody(lib, text) == Null <==> AllWhitespace(text) || lib.fromStr(text) == Some(Null)
    ensures ResponseBody(lib, text).Str? && !AllWhitespace(text) && lib.fromStr(text).None? ==> ResponseBody(lib, text).s == text
  {
    TrimEmpty(text);
  }

  /** `StatusCode::is_success`: the 2xx range. */
  predicate IsSuccess(status: nat) {
    200 <= status <= 299
  }

  /** The fields of the response record that the caller inspects. */
  datatype HttpResponse = HttpResponse(ok: bool, status: nat, body: Json)

  /** The response record of a status and a text. */
  function Triage(lib: JsonLib, status: nat, text: string): (r: HttpResponse)
    ensures r.ok <==> 200 <= status < 300
    ensures r.status == status
  {
    HttpResponse(IsSuccess(status), status, ResponseBody(lib, text))
  }
}
