/**
 * The global `ValidationPipe` configuration of `bootstrap`: the whitelist
 * options and the `exceptionFactory` that turns the validator's errors into
 * one `BadRequestException` carrying a `{field, message, value}` list.
 */
module ValidationSetup {
  import opened Wrappers
  import opened JsValues
  import opened NestExceptions
  import opened UserDto

  /** One entry of a validation error's `constraints` object, in key order. */
  datatype Constraint = Constraint(name: string, message: string)

  /** A class-validator `ValidationError`; `constraints` may be missing. */
  datatype ValidationError = ValidationError(property: string, value: JsValue, constraints: Option<seq<Constraint>>)

  /** One element of the list the factory builds. */
  datatype FieldError = FieldError(field: string, message: string, value: JsValue)

  const VALIDATION_FAILED_MESSAGE: string := "参数校验失败"

  /** `Object.values(error.constraints || {})[0] || '参数校验失败'`. */
  function FirstMessage(constraints: Option<seq<Constraint>>): (m: string)
    ensures m != ""
  {
    if constraints.Some? && |constraints.value| > 0 && constraints.value[0].message != "" then
      constraints.value[0].message
    else
      VALIDATION_FAILED_MESSAGE
  }

  /** The message is the first constraint's, unless there is none or it is empty. */
  lemma FirstMessageCases(constraints: Option<seq<Constraint>>)
    ensures constraints.Some? && |constraints.value| > 0 && constraints.value[0].message != "" ==>
              FirstMessage(constraints) == constraints.value[0].message
    ensures constraints.None? || constraints.value == [] ==> FirstMessage(constraints) == "参数校验失败"
    ensures constraints.Some? && |constraints.value| > 0 && constraints.value[0].message == "" ==>
              FirstMessage(constraints) == "参数校验失败"
  {
  }

  /** The callback given to `errors.map`. */
  function FormatError(error: ValidationError): (f: FieldError)
    ensures f.field == error.property && f.value == error.value && f.message != ""
  {
    FieldError(error.property, FirstMessage(error.constraints), error.value)
  }

  /** `errors.map(...)`: one record per error, in the same order. */
  function FormatErrors(errors: seq<ValidationError>): (r: seq<FieldError>)
    ensures |r| == |errors|
    ensures forall i :: 0 <= i < |r| ==>
              r[i].field == errors[i].property && r[i].value == errors[i].value &&
              r[i].message == FirstMessage(errors[i].constraints)
  {
    if errors == [] then [] else [FormatError(errors[0])] + FormatErrors(errors[1..])
  }

  /** The object literal `{field, message, value}`. */
  function ToJs(f: FieldError): JsValue {
    JObject(map["field" := JStr(f.field), "message" := JStr(f.message), "value" := f.value])
  }

  /** Reads a `{field, message, value}` object back. */
  function FromJs(v: JsValue): Option<FieldError> {
    if v.JObject? && "field" in v.props && "message" in v.props && "value" in v.props
       && v.props["field"].JStr? && v.props["message"].JStr?
    then Some(FieldError(v.props["field"].s, v.props["message"].s, v.props["value"]))
    else None
  }

  function EncodeAll(fs: seq<FieldError>): (r: seq<JsValue>)
    ensures |r| == |fs|
  {
    if fs == [] then [] else [ToJs(fs[0])] + EncodeAll(fs[1..])
  }

  function DecodeAll(vs: seq<JsValue>): Option<seq<FieldError>> {
    if vs == [] then Some([])
    else match (FromJs(vs[0]), DecodeAll(vs[1..]))
      case (Some(f), Some(rest)) => Some([f] + rest)
      case _ => None
  }

  /** The list sent to the client decodes back to exactly the records built. */
  lemma {:induction false} DecodeEncodeAll(fs: seq<FieldError>)
    ensures DecodeAll(EncodeAll(fs)) == Some(fs)
  {
    if fs != [] {
      DecodeEncodeAll(fs[1..]);
      assert EncodeAll(fs)[1..] == EncodeAll(fs[1..]);
      assert [fs[0]] + fs[1..] == fs;
    }
  }

  /** `exceptionFactory(errors)`: a BadRequestException carrying the formatted list. */
  function ExceptionFactory(errors: seq<ValidationError>): (e: Thrown)
    ensures e.HttpError? && e.status == 400 && e.response.JObject?
  {
    BadRequestException(EncodeAll(FormatErrors(errors)))
  }

  /** The factory's exception is a 400 whose body `message` is the list, one entry per error. */
  lemma ExceptionFactoryShape(errors: seq<ValidationError>)
    ensures ExceptionFactory(errors).HttpError?
    ensures ExceptionFactory(errors).status == 400
    ensures var body := ExceptionFactory(errors).response;
            body.JObject? && "message" in body.props && body.props["message"].JArray? &&
            |body.props["message"].items| == |errors| &&
            DecodeAll(body.props["message"].items) == Some(FormatErrors(errors))
  {
    DecodeEncodeAll(FormatErrors(errors));
  }

  /** The `whitelist` and `forbidNonWhitelisted` options of a ValidationPipe. */
  datatype PipeOptions = PipeOptions(whitelist: bool, forbidNonWhitelisted: bool)

  /** The options `bootstrap` installs. */
  const AppPipeOptions: PipeOptions := PipeOptions(true, true)

  /** A `new ValidationPipe()` with no options, as the e2e test installs it. */
  const DefaultPipeOptions: PipeOptions := PipeOptions(false, false)

  /**
   * The body the handler receives, or None when the pipe rejects it (and
   * calls the exception factory). Undeclared properties are rejected when
   * both options are set, stripped under `whitelist` alone, and kept
   * otherwise.
   */
  function Pipe(options: PipeOptions, schema: seq<Property>, body: Body, isEmail: string -> bool): (r: Option<Body>)
    ensures r.Some? ==> Conforms(schema, body, isEmail)
    ensures r.Some? ==> forall k :: k in r.value ==> k in body && r.value[k] == body[k]
    ensures r.Some? && options.whitelist ==> forall k :: k in r.value ==> Declared(schema, k)
  {
    var undeclared := exists k :: k in body && !Declared(schema, k);
    if !Conforms(schema, body, isEmail) then None
    else if options.whitelist && options.forbidNonWhitelisted && undeclared then None
    else if options.whitelist then Some(map k | k in body && Declared(schema, k) :: body[k])
    else Some(body)
  }

  /** Under the application's options, an undeclared property is rejected, never dropped. */
  lemma UndeclaredPropertyRejected(schema: seq<Property>, body: Body, isEmail: string -> bool, key: string)
    requires key in body && !Declared(schema, key)
    ensures Pipe(AppPipeOptions, schema, body, isEmail) == None
  {
  }

  /** Under the application's options, an admitted body is passed on unchanged. */
  lemma AppPipePassesBodyUnchanged(schema: seq<Property>, body: Body, isEmail: string -> bool)
    ensures Pipe(AppPipeOptions, schema, body, isEmail).Some? <==>
              Conforms(schema, body, isEmail) && forall k :: k in body ==> Declared(schema, k)
    ensures Pipe(AppPipeOptions, schema, body, isEmail).Some? ==>
              Pipe(AppPipeOptions, schema, body, isEmail).value == body
  {
    if Pipe(AppPipeOptions, schema, body, isEmail).Some? {
      var kept := map k | k in body && Declared(schema, k) :: body[k];
      assert kept == body;
    }
  }

  /** Under the test's default options, an undeclared property passes through. */
  lemma DefaultPipeKeepsUndeclared(schema: seq<Property>, body: Body, isEmail: string -> bool)
    requires Conforms(schema, body, isEmail)
    ensures Pipe(DefaultPipeOptions, schema, body, isEmail) == Some(body)
  {
  }

  /**
   * The e2e test creates a user with the 6-character password "123456"; the
   * `MinLength(8)` of `CreateUserDto` rejects that body under either options.
   */
  lemma SixCharacterPasswordRejected(isEmail: string -> bool, options: PipeOptions)
    ensures Pipe(options, CreateUserSchema,
                 map["name" := JStr("测试用户"), "email" := JStr("test@example.com"), "password" := JStr("123456")],
                 isEmail) == None
  {
    var body := map["name" := JStr("测试用户"), "email" := JStr("test@example.com"), "password" := JStr("123456")];
    CreateConformsIff(body, isEmail);
    assert Lookup(body, "password") == JStr("123456");
  }
}
