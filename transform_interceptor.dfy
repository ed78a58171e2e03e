/**
 * The success side of the response envelope: the `ResponseCode` constants,
 * `createApiResponse` and `TransformInterceptor`.
 */
module TransformInterceptor {
  import opened Wrappers
  import opened JsValues

  /**
   * The envelope `{code, message, data}` sent for every request. The
   * exception filter may place any JavaScript value in `message` (it copies a
   * value read from an untyped object), so the field holds a JsValue.
   */
  datatype ApiResponse<T> = ApiResponse(code: int, message: JsValue, data: T)

  /** The `ResponseCode` enum. */
  datatype ResponseCode =
    | SUCCESS | CREATED | BAD_REQUEST | UNAUTHORIZED | FORBIDDEN | NOT_FOUND | INTERNAL_SERVER_ERROR
  {
    function Code(): (c: int)
      ensures 200 <= c <= 500
    {
      match this
      case SUCCESS => 200
      case CREATED => 201
      case BAD_REQUEST => 400
      case UNAUTHORIZED => 401
      case FORBIDDEN => 403
      case NOT_FOUND => 404
      case INTERNAL_SERVER_ERROR => 500
    }
  }

  /** The reverse mapping a numeric TypeScript enum carries (`ResponseCode[404]`). */
  function FromCode(c: int): Option<ResponseCode> {
    if c == 200 then Some(SUCCESS)
    else if c == 201 then Some(CREATED)
    else if c == 400 then Some(BAD_REQUEST)
    else if c == 401 then Some(UNAUTHORIZED)
    else if c == 403 then Some(FORBIDDEN)
    else if c == 404 then Some(NOT_FOUND)
    else if c == 500 then Some(INTERNAL_SERVER_ERROR)
    else None
  }

  /** The enum's values and its reverse mapping agree in both directions. */
  lemma ResponseCodeReverseMapping(rc: ResponseCode, c: int)
    ensures FromCode(rc.Code()) == Some(rc)
    ensures FromCode(c) == Some(rc) <==> rc.Code() == c
  {
  }

  const SUCCESS_MESSAGE: string := "success"

  /** `createApiResponse(data, code = ResponseCode.SUCCESS, message = 'success')`. */
  function CreateApiResponse<T>(data: T, code: int := SUCCESS.Code(), message: string := SUCCESS_MESSAGE)
    : ApiResponse<T>
  {
    ApiResponse(code, JStr(message), data)
  }

  /** An explicitly supplied code and message are copied verbatim, and data is not touched. */
  lemma CreateApiResponseCopiesArguments<T>(data: T, code: int, message: string)
    ensures CreateApiResponse(data, code, message).code == code
    ensures CreateApiResponse(data, code, message).message == JStr(message)
    ensures CreateApiResponse(data, code, message).data == data
  {
  }

  /** With the defaults the envelope is `{code: 200, message: 'success', data}`. */
  lemma CreateApiResponseDefaults<T>(data: T)
    ensures CreateApiResponse(data) == ApiResponse(200, JStr("success"), data)
  {
  }

  /**
   * `TransformInterceptor.intercept`: the handler's observable, modelled as the
   * sequence of values it emits, mapped through `createApiResponse` with the
   * defaults. The execution context is not consulted.
   */
  function Intercept<T>(emitted: seq<T>): (r: seq<ApiResponse<T>>)
    ensures |r| == |emitted|
    ensures forall i :: 0 <= i < |r| ==>
              r[i].code == 200 && r[i].message == JStr("success") && r[i].data == emitted[i]
  {
    if emitted == [] then [] else [CreateApiResponse(emitted[0])] + Intercept(emitted[1..])
  }

  /** The payloads carried by a sequence of envelopes. */
  function Payloads<T>(rs: seq<ApiResponse<T>>): seq<T> {
    if rs == [] then [] else [rs[0].data] + Payloads(rs[1..])
  }

  /** Unwrapping the intercepted stream gives back exactly what the handler emitted. */
  lemma {:induction false} PayloadsOfIntercept<T>(emitted: seq<T>)
    ensures Payloads(Intercept(emitted)) == emitted
  {
    if emitted != [] {
      PayloadsOfIntercept(emitted[1..]);
      assert Intercept(emitted)[1..] == Intercept(emitted[1..]);
    }
  }
}
