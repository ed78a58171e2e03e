/**
 * The values a request handler can throw, as the exception filter tells them
 * apart, and the two framework exceptions the service and the validation
 * layer construct. The response bodies follow the framework's
 * `HttpException.createBody`, and `message` its `initMessage`.
 */
module NestExceptions {
  import opened JsValues

  /** `HttpStatus.INTERNAL_SERVER_ERROR`. */
  const INTERNAL_SERVER_ERROR_STATUS: int := 500

  /**
   * Something thrown: an `HttpException` (its `getStatus()`, `getResponse()`
   * and `message`), another `Error` (its `message`), or any other value.
   */
  datatype Thrown =
    | HttpError(status: int, response: JsValue, message: string)
    | PlainError(message: string)
    | NonError(value: JsValue)

  /**
   * `new NotFoundException(text)` for a non-empty text: status 404 and the
   * body `{message: text, error: 'Not Found', statusCode: 404}`. (An empty
   * text is falsy and would give the default body; the service never passes
   * one.)
   */
  function NotFoundException(text: string): Thrown
    requires text != ""
  {
    HttpError(404,
      JObject(map["message" := JStr(text), "error" := JStr("Not Found"), "statusCode" := JNum(404)]),
      text)
  }

  /**
   * `new BadRequestException(list)` for an array argument: status 400 and the
   * body `{message: list, error: 'Bad Request', statusCode: 400}`; since the
   * body's message is not a string, the exception's own message is the one
   * derived from the class name.
   */
  function BadRequestException(list: seq<JsValue>): Thrown {
    HttpError(400,
      JObject(map["message" := JArray(list), "error" := JStr("Bad Request"), "statusCode" := JNum(400)]),
      "Bad Request Exception")
  }
}
