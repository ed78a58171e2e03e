# User CRUD service: request pipeline model

A Dafny model of the request pipeline of a small NestJS service that stores
users (id, name, email, password, timestamps) behind a Prisma client:

- **Response envelope** (`transform_interceptor.dfy`): the `ResponseCode`
  constants with their reverse mapping, `createApiResponse` with its defaults,
  and `TransformInterceptor.intercept`, which wraps every emitted handler value
  as `{code: 200, message: 'success', data}`.
- **Exception filter** (`http_exception_filter.dfy`): `HttpExceptionFilter.catch`
  as a method with the source's locals (`status`, `message`, `errors`)
  reassigned branch by branch, writing one response to an `HttpResponse`
  object. It is proved against `ErrorEnvelope`, a case-by-case statement of the
  envelope for each exception shape. The shapes are: an `HttpException` with a
  string, object, array, `null` or other body; a plain `Error`; any other
  thrown value. The JavaScript semantics the filter relies on (`typeof`,
  truthiness, `||`, property reads) are in `js_values.dfy`.
- **Framework exceptions** (`nest_exceptions.dfy`): the thrown-value shapes, and
  the bodies that `NotFoundException(text)` and `BadRequestException(list)`
  carry.
- **DTO constraints** (`user_dto.dfy`): `CreateUserDto` and `UpdateUserDto` as
  lists of decorators per property, with a meaning for each decorator. Lemmas
  state outright which bodies conform. The email syntax check is a parameter
  `isEmail: string -> bool`.
- **Validation setup** (`validation_setup.dfy`): the `whitelist` /
  `forbidNonWhitelisted` options of the global `ValidationPipe`, and the
  `exceptionFactory` that maps validation errors to `{field, message, value}`
  records inside a `BadRequestException`.
- **User service** (`user_service.dfy`): a `UserService` class whose `users`
  field is the table (a map from id to record). It has `Create`, `FindAll`,
  `FindOne`, `Update` and `Remove`, and throws NotFound as an `Err` result.
- **Pipeline** (`request_pipeline.dfy`): how the filter renders a validation
  rejection, a NotFound and a store failure, and a create/update/delete/read
  scenario through validation, the service and both envelopes.

Where the code and the service's documented intent differ, the model follows
the code:

- A plain `Error` (a failing store call included) keeps its own message in the
  500 envelope. Only an empty message falls back to `'服务器内部错误'`. The
  detail is not suppressed.
- `create` has no `select`, so it returns the stored record with its password.
  Every other operation returns the password-free projection `UserView`.
- The e2e test creates a user with the 6-character password `"123456"` and
  expects success. `MinLength(8)` rejects that body, and the model follows the
  DTO (`ValidationSetup.SixCharacterPasswordRejected`).
- The e2e test installs a bare `ValidationPipe` and neither the filter nor the
  interceptor. Its expected bodies are therefore unwrapped, and undeclared
  properties pass (`ValidationSetup.DefaultPipeKeepsUndeclared`).

## Model

| member | source | states |
|---|---|---|
| `TransformInterceptor.ResponseCodeReverseMapping` | src/common/transform/transform.interceptor.ts:22-30 | each enum member's code maps back to that member, and a code maps to a member exactly when it is that member's code (200, 201, 400, 401, 403, 404, 500) |
| `TransformInterceptor.CreateApiResponse` | src/common/transform/transform.interceptor.ts:38-48 | builds the envelope `{code, message, data}` with code defaulting to 200 and message to 'success' |
| `TransformInterceptor.CreateApiResponseDefaults` | src/common/transform/transform.interceptor.ts:38-48 | with the defaults the envelope is `{code: 200, message: 'success', data}` |
| `TransformInterceptor.CreateApiResponseCopiesArguments` | src/common/transform/transform.interceptor.ts:39-47 | an explicit code and message are copied verbatim and data is untouched |
| `TransformInterceptor.Intercept` | src/common/transform/transform.interceptor.ts:58-68 | one envelope per emitted value, in order, each with code 200, message 'success' and that value as data; the context plays no part |
| `TransformInterceptor.PayloadsOfIntercept` | src/common/transform/transform.interceptor.ts:62-66 | unwrapping the intercepted stream gives back exactly what the handler emitted |
| `HttpExceptionFilter.ErrorEnvelope` | src/common/filter/http-exception.filter.ts:21-53 | the envelope for each exception shape; there is none exactly for an HttpException with a `null` body, the code is `getStatus()` for an HttpException and 500 otherwise, and data is null or an array |
| `HttpExceptionFilter.Catch` | src/common/filter/http-exception.filter.ts:17-56 | the filter sends exactly the envelope `ErrorEnvelope` gives, in exactly one write, with the HTTP status equal to the envelope code; when reading `message` of a `null` body throws, nothing is written |
| `HttpExceptionFilter.HttpResponse.Status` | src/common/filter/http-exception.filter.ts:55 | `response.status(code)` sets the status and sends nothing |
| `HttpExceptionFilter.HttpResponse.Json` | src/common/filter/http-exception.filter.ts:55 | `response.json(body)` sends one body under the current status |
| `HttpExceptionFilter.NonErrorIsInternalError` | src/common/filter/http-exception.filter.ts:21-23 | a thrown value that is neither an HttpException nor an Error gives code 500, message '服务器内部错误', data null |
| `HttpExceptionFilter.PlainErrorKeepsOwnMessage` | src/common/filter/http-exception.filter.ts:45-47 | a plain Error gives code 500, its own message (or '服务器内部错误' when that is empty) and data null |
| `HttpExceptionFilter.HttpErrorCodeIsStatus` | src/common/filter/http-exception.filter.ts:25-26 | for an HttpException the envelope code is `getStatus()`; an envelope exists exactly when the body is not `null` |
| `HttpExceptionFilter.StringBodyIsMessage` | src/common/filter/http-exception.filter.ts:29-30 | a string body is the message verbatim, with data null |
| `HttpExceptionFilter.ArrayMessageIsValidationFailure` | src/common/filter/http-exception.filter.ts:36-38 | an object body whose `message` is an array gives message '参数校验失败' and that array, unchanged, as data |
| `HttpExceptionFilter.ScalarMessageFallbacks` | src/common/filter/http-exception.filter.ts:31-41 | a non-array body `message` is used when truthy, else the exception's own message when non-empty, else '请求失败'; data is null |
| `HttpExceptionFilter.DataOnlyForArrayMessage` | src/common/filter/http-exception.filter.ts:36-52 | data is non-null exactly when the body's `message` is an array, and is then that array |
| `HttpExceptionFilter.FilterThrowsOnlyOnNullBody` | src/common/filter/http-exception.filter.ts:31-33 | the filter fails to produce an envelope exactly for an HttpException whose body is `null` |
| `UserDto.CreateConformsIff` | src/module/user/dto/user.dto.ts:4-18 | a Create body conforms exactly when name is a non-empty string, email a non-empty string accepted by the email check, and password a string of 8 to 32 characters |
| `UserDto.CreateRequiresAllFields` | src/module/user/dto/user.dto.ts:4-18 | a Create body missing name, email or password is rejected |
| `UserDto.UpdateConformsIff` | src/module/user/dto/user.dto.ts:20-34 | an Update body conforms exactly when each property is absent or null, or else name is a string, email a string accepted by the email check, password a string of 8 to 32 characters |
| `UserDto.UpdateEmptyBodyConforms` | src/module/user/dto/user.dto.ts:20-34 | the empty Update body conforms |
| `UserDto.EmptyNameUpdateOnly` | src/module/user/dto/user.dto.ts:21-23 | an empty name is rejected on Create and is no obstacle on Update |
| `UserDto.UpdatePasswordLength` | src/module/user/dto/user.dto.ts:29-33 | a password given on Update has 8 to 32 characters |
| `UserDto.ToCreateDto` | src/module/user/dto/user.dto.ts:4-18 | the DTO read from a conforming body has a non-empty name, a non-empty email accepted by the check, a password of 8 to 32 characters, all equal to the body's values |
| `ValidationSetup.FirstMessage` | src/main.ts:32-35 | the record's message is never empty |
| `ValidationSetup.FirstMessageCases` | src/main.ts:32-35 | the message is the first constraint's message, or '参数校验失败' when constraints are missing or empty or the first message is empty |
| `ValidationSetup.FormatError` | src/main.ts:31-37 | one validation error's record: field is its property, value is its value unchanged, message is never empty |
| `ValidationSetup.FormatErrors` | src/main.ts:31-38 | one record per validation error, same count and order, with the error's property as field and its value unchanged |
| `ValidationSetup.DecodeEncodeAll` | src/main.ts:33-37 | the `{field, message, value}` objects decode back to exactly the records built |
| `ValidationSetup.ExceptionFactory` | src/main.ts:30-40 | the factory's exception is an HttpException with status 400 and an object body |
| `ValidationSetup.ExceptionFactoryShape` | src/main.ts:30-40 | the factory throws a 400 whose body `message` is the list, one entry per error, decoding to the formatted records |
| `ValidationSetup.Pipe` | src/main.ts:18-24 | a body the pipe admits conforms to the schema; what it passes on is part of the body, and under `whitelist` holds only declared properties |
| `ValidationSetup.UndeclaredPropertyRejected` | src/main.ts:22-24 | under the application's options an undeclared property makes the pipe reject the body |
| `ValidationSetup.AppPipePassesBodyUnchanged` | src/main.ts:22-24 | under the application's options a body is admitted exactly when it conforms and declares nothing extra, and is then passed on unchanged |
| `ValidationSetup.DefaultPipeKeepsUndeclared` | src/module/user/user.controller.spec.ts:19 | a bare ValidationPipe admits a conforming body with its undeclared properties |
| `ValidationSetup.SixCharacterPasswordRejected` | src/module/user/user.controller.spec.ts:39-43 | the test's create body with password "123456" is rejected under any options |
| `Decimal.IntToStringRoundTrip` | src/module/user/user.service.ts:40 | the decimal rendering of an id parses back to that id |
| `Decimal.IntToStringInjective` | src/module/user/user.service.ts:40 | different ids render differently |
| `Users.View` | src/module/user/user.service.ts:17-23 | the projection copies id, name, email, createdAt and updatedAt and has no password field |
| `Users.NotFoundMessage` | src/module/user/user.service.ts:40 | the message is longer than its fixed prefix and suffix, so never empty |
| `Users.NotFoundMessageNamesId` | src/module/user/user.service.ts:39-41 | the NotFound message quotes the id's decimal text between its fixed prefix and suffix, and determines the id |
| `Users.PatchChangesOnlyGivenFields` | src/module/user/user.service.ts:49-51 | an update sets the fields the DTO carries, keeps the id, `createdAt` and every field it leaves out, and sets `updatedAt` to the store's instant; the empty DTO changes only `updatedAt`; applying it twice at the same instant equals once |
| `Users.Patch` | src/module/user/user.service.ts:49-51 | the patched record keeps the id and `createdAt` and carries the store's `updatedAt` |
| `Users.UserService.constructor` | src/module/user/user.service.ts:7 | the service starts over the given table, keyed by id |
| `Users.UserService.Create` | src/module/user/user.service.ts:9-13 | on success the DTO's fields become a new record under the store's id, returned whole with its password; on a store failure an Error is thrown and the table is unchanged |
| `Users.UserService.FindAll` | src/module/user/user.service.ts:15-24 | one projection per stored record, each record exactly once, each equal to the record's projection |
| `Users.UserService.FindOne` | src/module/user/user.service.ts:27-44 | a stored id gives its projection; a missing id throws NotFound with message `用户 ID {id} 不存在` |
| `Users.UserService.Update` | src/module/user/user.service.ts:46-60 | a missing id throws NotFound with the table unchanged; otherwise only that record is patched, with `updatedAt` set to the store's instant, and its new projection returned |
| `Users.UserService.Remove` | src/module/user/user.service.ts:62-75 | a missing id throws NotFound and nothing is deleted; otherwise exactly that key is deleted and its pre-deletion projection returned |
| `RequestPipeline.ValidationRejectionEnvelope` | src/main.ts:30-40 | a rejected body ends as a 400 envelope with message '参数校验失败' and the formatted list as data |
| `RequestPipeline.NotFoundEnvelope` | src/module/user/user.service.ts:39-41 | a missing id ends as a 404 envelope whose message names the id, with data null |
| `RequestPipeline.StoreFailureEnvelope` | src/common/filter/http-exception.filter.ts:45-46 | a failing store call ends as a 500 envelope carrying the store's own message |
| `RequestPipeline.ScenarioBodyAdmitted` | src/module/user/user.controller.spec.ts:39-43 | the test's create body, with an 8-character password in place of its 6-character one, is admitted unchanged and read into the DTO |
| `RequestPipeline.UserLifecycleScenario` | src/module/user/user.controller.spec.ts:37-178 | create returns the stored record with its password, update changes the name and `updatedAt` and keeps the id, and after delete a read of the id gives a 404 naming it |

## Left out

- Bootstrap and framework wiring: `NestFactory`, `app.listen` and the global registration of the filter, interceptor and pipe are I/O and dependency injection. `AppModule`, `UserModule` and `HelloModule` are declarations without logic.
- The controller is not part of this model. Parsing `:id` (the 400 for `/user/abc`) and the 201/200 HTTP statuses of success responses are therefore not modelled.
- The Prisma store is an abstract map. The id it assigns and the creation timestamp are parameters of `Create`, and the update timestamp a parameter of `Update`. The email uniqueness constraint is not modelled: a failing store call is a parameter (`storeFailure`) that makes `Create` throw an Error.
- The schema is not part of this model. `Update` takes the `updatedAt` the store writes as a parameter `now`; a schema without a refresh corresponds to passing the old value.
- An explicit `null` in an Update body passes `IsOptional`, and the model's predicates accept it. What the store then does with a `null` field is not modelled: the service's `UpdateUserDto` carries only absent or string fields.
- Concurrency: the gap between the existence check and the write in `update` and `remove` (a concurrent delete) is not modelled. Every operation runs atomically on the map.
- Asynchrony and RxJS: `async`/`await` and the `Observable` returned by `intercept`. The handler's observable is the sequence of values it emits.
- Users.UserService.FindAll: does not state the order of the list, because the store enumerates rows in an order the query leaves unspecified.
- Library predicates: the email syntax check is a parameter. The order in which class-validator lists an error's constraints is taken as given, and the validation errors are an input of `ExceptionFactory`. `MinLength`/`MaxLength` count characters; validator.js's extra discount of variation selectors is not modelled.
- Decimal.IntToString: writes every digit of any integer, whereas JavaScript renders magnitudes of 10^21 and above in exponent form and cannot tell integers above 2^53 apart; the NotFound message and its injectivity lemma hold only for ids within that range in the source.
- JavaScript numbers are integers here (no fractions, NaN or -0). Functions and symbols as thrown values or bodies are not modelled. A body with `typeof` "object" is `null`, an array or a plain object.
- The Nest exception classes are not part of this model. `NotFoundException` and `BadRequestException` are modelled by the body and message they carry when built from a string or an array.
