/**
 * How the pieces meet on a request: the validation layer's rejection, the
 * service's NotFound and a store failure, each as the exception filter
 * renders it; and a create/read/update/delete run through the service.
 */
module RequestPipeline {
  import opened Wrappers
  import opened JsValues
  import opened TransformInterceptor
  import opened NestExceptions
  import opened HttpExceptionFilter
  import opened UserDto
  import opened ValidationSetup
  import opened Users
  import Decimal

  /**
   * A rejected body ends as a 400 envelope with the message '参数校验失败'
   * and, as data, the list the factory built, one entry per error in order.
   */
  lemma ValidationRejectionEnvelope(errors: seq<ValidationError>)
    ensures var envelope := ErrorEnvelope(ExceptionFactory(errors));
            envelope.Some? &&
            envelope.value.code == 400 &&
            envelope.value.message == JStr("参数校验失败") &&
            envelope.value.data == JArray(EncodeAll(FormatErrors(errors))) &&
            DecodeAll(envelope.value.data.items) == Some(FormatErrors(errors))
  {
    DecodeEncodeAll(FormatErrors(errors));
  }

  /** A missing id ends as a 404 envelope whose message names that id, with no data. */
  lemma NotFoundEnvelope(id: int)
    ensures ErrorEnvelope(NotFoundException(NotFoundMessage(id)))
            == Some(ApiResponse(404, JStr(NotFoundMessage(id)), JNull))
  {
  }

  /**
   * A failing store call (a duplicate email on create) surfaces as a plain
   * Error: a 500 envelope that carries the store's own message when it has
   * one, so the detail is not replaced by the generic text.
   */
  lemma StoreFailureEnvelope(storeMessage: string)
    requires storeMessage != ""
    ensures ErrorEnvelope(PlainError(storeMessage)) == Some(ApiResponse(500, JStr(storeMessage), JNull))
  {
  }

  /**
   * The e2e test's create body (its name and email) with an 8-character
   * password in place of its 6-character one.
   */
  function ScenarioBody(): Body {
    map["name" := JStr("测试用户"), "email" := JStr("test@example.com"), "password" := JStr("12345678")]
  }

  /** Under the application's options the scenario body is admitted unchanged. */
  lemma ScenarioBodyAdmitted(isEmail: string -> bool)
    requires isEmail("test@example.com")
    ensures Pipe(AppPipeOptions, CreateUserSchema, ScenarioBody(), isEmail) == Some(ScenarioBody())
    ensures ToCreateDto(ScenarioBody(), isEmail) == CreateUserDto("测试用户", "test@example.com", "12345678")
  {
    var body := ScenarioBody();
    assert Lookup(body, "name") == JStr("测试用户") && Lookup(body, "email") == JStr("test@example.com");
    assert Lookup(body, "password") == JStr("12345678");
    CreateConformsIff(body, isEmail);
    forall k | k in body ensures Declared(CreateUserSchema, k) {
      assert k == CreateUserSchema[0].name || k == CreateUserSchema[1].name || k == CreateUserSchema[2].name;
    }
    AppPipePassesBodyUnchanged(CreateUserSchema, body, isEmail);
  }

  /**
   * The create/update/delete/read sequence of the e2e test, with a password
   * of valid length, through validation, the service and both envelopes.
   * The store assigns id 1 at instant 0 and updates at instant 1. The create
   * envelope holds the stored record with its password; the update renames
   * and keeps the id; after the delete, reading the id gives a 404 naming it.
   */
  method UserLifecycleScenario(isEmail: string -> bool)
    returns (created: ApiResponse<User>, updated: ApiResponse<UserView>, missing: ApiResponse<JsValue>)
    requires isEmail("test@example.com")
    ensures created == ApiResponse(200, JStr("success"), User(1, "测试用户", "test@example.com", "12345678", 0, 0))
    ensures updated == ApiResponse(200, JStr("success"), UserView(1, "更新后的用户名", "test@example.com", 0, 1))
    ensures missing == ApiResponse(404, JStr("用户 ID 1 不存在"), JNull)
  {
    ScenarioBodyAdmitted(isEmail);
    var admitted := Pipe(AppPipeOptions, CreateUserSchema, ScenarioBody(), isEmail);
    var dto := ToCreateDto(admitted.value, isEmail);

    var service := new UserService(map[]);
    var createResult := service.Create(dto, 1, 0, None);
    created := CreateApiResponse(createResult.value);

    var updateResult := service.Update(1, UpdateUserDto(Some("更新后的用户名"), None, None), 1);
    updated := CreateApiResponse(updateResult.value);

    var removeResult := service.Remove(1);
    assert removeResult == Ok(UserView(1, "更新后的用户名", "test@example.com", 0, 1));

    var findResult := service.FindOne(1);
    assert findResult == Err(NotFoundException(NotFoundMessage(1)));
    NotFoundEnvelope(1);
    assert Decimal.IntToString(1) == "1";
    missing := ErrorEnvelope(findResult.error).value;
  }
}
