/** The API's error envelope, core/exceptions.py: DRF's own handler builds a
    response (or none), then `custom_exception_handler` replaces its body by
    `{success: false, error: {code, message, details}}`. */
module Errors {
  import opened Wrappers

  /** A JSON value, enough for response bodies. */
  datatype Json =
    | JNull
    | JBool(b: bool)
    | JInt(i: int)
    | JString(s: string)
    | JList(items: seq<Json>)
    | JObject(fields: map<string, Json>)

  const ValidationMessage: string := "Validation error occurred"
  const NotFoundMessage: string := "Resource not found"
  const ForbiddenMessage: string := "Permission denied"
  const UnauthorizedMessage: string := "Authentication required"
  const ServerErrorMessage: string := "Internal server error"
  const GenericMessage: string := "An error occurred"

  /** `get_error_message`: a validation error wins whatever the status; then
      404, 403 and 401 in that order; then any 5xx; then a generic message. */
  function ErrorMessage(isValidationError: bool, status: int): (r: string)
    ensures isValidationError ==> r == ValidationMessage
  {
    if isValidationError then ValidationMessage
    else if status == 404 then NotFoundMessage
    else if status == 403 then ForbiddenMessage
    else if status == 401 then UnauthorizedMessage
    else if status >= 500 then ServerErrorMessage
    else GenericMessage
  }

  /** For any other exception the message names the status class exactly:
      each fixed message belongs to exactly one status (or to all of 5xx), and
      every other status gets the generic message. */
  lemma ErrorMessageClassifiesStatus(status: int)
    ensures ErrorMessage(false, status) == NotFoundMessage <==> status == 404
    ensures ErrorMessage(false, status) == ForbiddenMessage <==> status == 403
    ensures ErrorMessage(false, status) == UnauthorizedMessage <==> status == 401
    ensures ErrorMessage(false, status) == ServerErrorMessage <==> status >= 500
    ensures ErrorMessage(false, status) == GenericMessage <==>
              status < 500 && status != 401 && status != 403 && status != 404
    ensures ErrorMessage(false, status) != ValidationMessage
  {
  }

  /** The new body: `details` is the old body when that is an object, else
      the old body wrapped as `{detail: ...}`. */
  function Envelope(status: int, message: string, data: Json): (r: Json)
    ensures r.JObject? && r.fields.Keys == {"success", "error"} && r.fields["success"] == JBool(false)
  {
    JObject(map["success" := JBool(false),
                "error" := JObject(map["code" := JInt(status),
                                       "message" := JString(message),
                                       "details" := if data.JObject? then data else JObject(map["detail" := data])])])
  }

  /** The envelope keeps the status and the whole old body: `details` is
      always an object, and the old body can be read back from it. */
  lemma EnvelopeKeepsBody(status: int, message: string, data: Json)
    ensures var e := Envelope(status, message, data).fields["error"];
            e.JObject? && e.fields.Keys == {"code", "message", "details"}
            && e.fields["code"] == JInt(status) && e.fields["message"] == JString(message)
            && e.fields["details"].JObject?
            && (data.JObject? ==> e.fields["details"] == data)
            && (!data.JObject? ==> e.fields["details"].fields == map["detail" := data])
  {
  }

  /** A response DRF produced; the handler rewrites its body in place. */
  class Response {
    var status: int
    var data: Json

    constructor (status: int, data: Json)
      ensures this.status == status && this.data == data
    {
      this.status := status;
      this.data := data;
    }
  }

  /** `custom_exception_handler`: when DRF produced no response, nothing
      happens and `None` is passed on; otherwise the same response comes back
      with its body replaced by the envelope and its status untouched. */
  method HandleException(isValidationError: bool, response: Option<Response>) returns (r: Option<Response>)
    modifies if response.Some? then {response.value} else {}
    ensures r == response
    ensures response.Some? ==>
              response.value.status == old(response.value.status)
              && response.value.data
                 == Envelope(old(response.value.status), ErrorMessage(isValidationError, old(response.value.status)),
                             old(response.value.data))
  {
    if response.Some? {
      var resp := response.value;
      resp.data := Envelope(resp.status, ErrorMessage(isValidationError, resp.status), resp.data);
    }
    return response;
  }
}
