/**
 * `HttpExceptionFilter.catch`: every thrown value becomes one
 * `{code, message, data}` envelope, written once to the HTTP response.
 */
module HttpExceptionFilter {
  import opened Wrappers
  import opened JsValues
  import opened TransformInterceptor
  import opened NestExceptions

  const INTERNAL_ERROR_MESSAGE: string := "服务器内部错误"
  const VALIDATION_FAILED_MESSAGE: string := "参数校验失败"
  const REQUEST_FAILED_MESSAGE: string := "请求失败"

  /**
   * The envelope the filter sends for a thrown value, stated case by case on
   * the shape of the exception. None when the filter itself throws: a `null`
   * exception response has `typeof` "object", and reading its `message`
   * raises a TypeError before anything is written.
   */
  function ErrorEnvelope(exception: Thrown): (r: Option<ApiResponse<JsValue>>)
    ensures r.None? <==> exception.HttpError? && exception.response.JNull?
    ensures r.Some? ==> r.value.code == (if exception.HttpError? then exception.status else 500)
    ensures r.Some? ==> r.value.data.JNull? || r.value.data.JArray?
  {
    match exception
    case NonError(_) =>
      Some(ApiResponse(INTERNAL_SERVER_ERROR_STATUS, JStr(INTERNAL_ERROR_MESSAGE), JNull))
    case PlainError(own) =>
      Some(ApiResponse(INTERNAL_SERVER_ERROR_STATUS,
                       JStr(if own != "" then own else INTERNAL_ERROR_MESSAGE), JNull))
    case HttpError(status, body, own) =>
      var fallback := JStr(if own != "" then own else REQUEST_FAILED_MESSAGE);
      if body.JStr? then
        Some(ApiResponse(status, body, JNull))
      else if body.JNull? then
        None
      else if body.JArray? || body.JObject? then
        var bodyMessage := Get(body, "message");
        if bodyMessage.JArray? then
          Some(ApiResponse(status, JStr(VALIDATION_FAILED_MESSAGE), bodyMessage))
        else if Truthy(bodyMessage) then
          Some(ApiResponse(status, bodyMessage, JNull))
        else
          Some(ApiResponse(status, fallback, JNull))
      else
        Some(ApiResponse(status, fallback, JNull))
  }

  /** The part of an express `Response` the filter uses. */
  class HttpResponse {
    var statusCode: int
    /** Every `json` call so far: the status in force and the body sent. */
    var sent: seq<(int, ApiResponse<JsValue>)>

    constructor ()
      ensures statusCode == 200 && sent == []
    {
      statusCode := 200;
      sent := [];
    }

    /** `response.status(code)`. */
    method Status(code: int)
      modifies this
      ensures statusCode == code && sent == old(sent)
    {
      statusCode := code;
    }

    /** `response.json(body)`. */
    method Json(body: ApiResponse<JsValue>)
      modifies this
      ensures sent == old(sent) + [(statusCode, body)] && statusCode == old(statusCode)
    {
      sent := sent + [(statusCode, body)];
    }
  }

  /**
   * `catch(exception, host)`: the locals `status`, `message` and `errors` are
   * initialised to the internal-error case and reassigned branch by branch;
   * then exactly one response is written, with the HTTP status equal to the
   * envelope's code. `threw` is set when reading the message of a `null`
   * exception response throws, in which case nothing is written.
   */
  method Catch(exception: Thrown, response: HttpResponse) returns (threw: bool)
    modifies response
    ensures threw <==> ErrorEnvelope(exception).None?
    ensures threw ==> response.statusCode == old(response.statusCode) && response.sent == old(response.sent)
    ensures !threw ==>
              var envelope := ErrorEnvelope(exception).value;
              response.sent == old(response.sent) + [(envelope.code, envelope)] &&
              response.statusCode == envelope.code
  {
    var status := INTERNAL_SERVER_ERROR_STATUS;
    var message := JStr(INTERNAL_ERROR_MESSAGE);
    var errors := JNull;

    match exception {
      case HttpError(exceptionStatus, exceptionResponse, exceptionMessage) =>
        status := exceptionStatus;
        if TypeOf(exceptionResponse) == TString {
          message := exceptionResponse;
        } else if TypeOf(exceptionResponse) == TObject {
          if exceptionResponse.JNull? {
            return true;
          }
          var responseMessage := Get(exceptionResponse, "message");
          message := Or(responseMessage, Or(JStr(exceptionMessage), JStr(REQUEST_FAILED_MESSAGE)));
          if responseMessage.JArray? {
            errors := responseMessage;
            message := JStr(VALIDATION_FAILED_MESSAGE);
          } else if Truthy(responseMessage) {
            message := responseMessage;
          }
        } else {
          message := Or(JStr(exceptionMessage), JStr(REQUEST_FAILED_MESSAGE));
        }
      case PlainError(exceptionMessage) =>
        message := Or(JStr(exceptionMessage), JStr(INTERNAL_ERROR_MESSAGE));
      case NonError(_) =>
    }

    var apiResponse := ApiResponse(status, message, Or(errors, JNull));
    response.Status(status);
    response.Json(apiResponse);
    threw := false;
  }

  /** A value that is neither an HttpException nor an Error gives a generic 500. */
  lemma NonErrorIsInternalError(value: JsValue)
    ensures ErrorEnvelope(NonError(value)) == Some(ApiResponse(500, JStr("服务器内部错误"), JNull))
  {
  }

  /** A plain Error gives 500 with its own message, or the generic one when that is empty. */
  lemma PlainErrorKeepsOwnMessage(own: string)
    ensures ErrorEnvelope(PlainError(own)).Some?
    ensures ErrorEnvelope(PlainError(own)).value.code == 500
    ensures ErrorEnvelope(PlainError(own)).value.data == JNull
    ensures own != "" ==> ErrorEnvelope(PlainError(own)).value.message == JStr(own)
    ensures own == "" ==> ErrorEnvelope(PlainError(own)).value.message == JStr("服务器内部错误")
  {
  }

  /** For an HttpException the envelope's code is `getStatus()`, whatever the body. */
  lemma HttpErrorCodeIsStatus(status: int, body: JsValue, own: string)
    ensures ErrorEnvelope(HttpError(status, body, own)).Some? <==> !body.JNull?
    ensures ErrorEnvelope(HttpError(status, body, own)).Some? ==>
              ErrorEnvelope(HttpError(status, body, own)).value.code == status
  {
  }

  /** A string body is the message verbatim, with no data. */
  lemma StringBodyIsMessage(status: int, text: string, own: string)
    ensures ErrorEnvelope(HttpError(status, JStr(text), own)) == Some(ApiResponse(status, JStr(text), JNull))
  {
  }

  /** An object body whose `message` is an array: the validation message, and the array as data. */
  lemma ArrayMessageIsValidationFailure(status: int, props: map<string, JsValue>, own: string)
    requires "message" in props && props["message"].JArray?
    ensures ErrorEnvelope(HttpError(status, JObject(props), own))
            == Some(ApiResponse(status, JStr("参数校验失败"), props["message"]))
  {
  }

  /**
   * An object body whose `message` is not an array: that message when truthy,
   * otherwise the exception's own message, otherwise '请求失败'.
   */
  lemma ScalarMessageFallbacks(status: int, props: map<string, JsValue>, own: string)
    requires !("message" in props && props["message"].JArray?)
    ensures var envelope := ErrorEnvelope(HttpError(status, JObject(props), own)).value;
            envelope.data == JNull &&
            ("message" in props && Truthy(props["message"]) ==> envelope.message == props["message"]) &&
            (!("message" in props && Truthy(props["message"])) && own != "" ==> envelope.message == JStr(own)) &&
            (!("message" in props && Truthy(props["message"])) && own == "" ==> envelope.message == JStr("请求失败"))
  {
  }

  /**
   * The envelope carries data exactly when the exception is an HttpException
   * whose object body has an array `message`; the data is then that array.
   */
  lemma DataOnlyForArrayMessage(exception: Thrown)
    requires ErrorEnvelope(exception).Some?
    ensures ErrorEnvelope(exception).value.data != JNull <==>
              exception.HttpError? && exception.response.JObject? &&
              "message" in exception.response.props && exception.response.props["message"].JArray?
    ensures ErrorEnvelope(exception).value.data != JNull ==>
              ErrorEnvelope(exception).value.data == exception.response.props["message"]
  {
  }

  /** The filter throws, and writes nothing, only for an HttpException whose response is `null`. */
  lemma FilterThrowsOnlyOnNullBody(exception: Thrown)
    ensures ErrorEnvelope(exception).None? <==> exception.HttpError? && exception.response.JNull?
  {
  }
}
