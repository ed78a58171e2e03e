/**
 * `CreateUserDto` and `UpdateUserDto`: each property with its list of
 * class-validator decorators, and what it means for a request body to
 * satisfy them. The email syntax check is a parameter (`isEmail`).
 */
module UserDto {
  import opened Wrappers
  import opened JsValues

  datatype Decorator =
    | IsString
    | IsEmail
    | IsNotEmpty
    | MinLength(min: nat)
    | MaxLength(max: nat)
    | IsOptional

  datatype Property = Property(name: string, decorators: seq<Decorator>)

  const CreateUserSchema: seq<Property> := [
    Property("name", [IsString, IsNotEmpty]),
    Property("email", [IsEmail, IsNotEmpty]),
    Property("password", [IsString, IsNotEmpty, MinLength(8), MaxLength(32)])
  ]

  const UpdateUserSchema: seq<Property> := [
    Property("name", [IsString, IsOptional]),
    Property("email", [IsEmail, IsOptional]),
    Property("password", [IsString, IsOptional, MinLength(8), MaxLength(32)])
  ]

  /** A request body: a plain object; an absent key reads as `undefined`. */
  type Body = map<string, JsValue>

  function Lookup(body: Body, key: string): JsValue {
    if key in body then body[key] else JUndefined
  }

  /** What one decorator checks of a value. Lengths count characters. */
  predicate Satisfies(d: Decorator, v: JsValue, isEmail: string -> bool) {
    match d
    case IsString => v.JStr?
    case IsEmail => v.JStr? && isEmail(v.s)
    case IsNotEmpty => v != JStr("") && v != JNull && v != JUndefined
    case MinLength(min) => v.JStr? && |v.s| >= min
    case MaxLength(max) => v.JStr? && |v.s| <= max
    case IsOptional => true
  }

  /** `IsOptional` skips every check of a `null` or `undefined` value. */
  predicate PropertyValid(p: Property, v: JsValue, isEmail: string -> bool) {
    (IsOptional in p.decorators && (v.JNull? || v.JUndefined?)) ||
    forall d :: d in p.decorators ==> Satisfies(d, v, isEmail)
  }

  /** Every declared property of the body passes its decorators. */
  predicate Conforms(schema: seq<Property>, body: Body, isEmail: string -> bool) {
    forall i :: 0 <= i < |schema| ==> PropertyValid(schema[i], Lookup(body, schema[i].name), isEmail)
  }

  /** Whether `key` is declared by the schema. */
  predicate Declared(schema: seq<Property>, key: string) {
    exists i :: 0 <= i < |schema| && schema[i].name == key
  }

  predicate IsNonEmptyString(v: JsValue) {
    v.JStr? && v.s != ""
  }

  /**
   * A body conforms to `CreateUserDto` exactly when `name` is a non-empty
   * string, `email` a non-empty string accepted by `isEmail`, and `password`
   * a string of 8 to 32 characters.
   */
  lemma CreateConformsIff(body: Body, isEmail: string -> bool)
    ensures Conforms(CreateUserSchema, body, isEmail) <==>
              IsNonEmptyString(Lookup(body, "name")) &&
              IsNonEmptyString(Lookup(body, "email")) && isEmail(Lookup(body, "email").s) &&
              Lookup(body, "password").JStr? && 8 <= |Lookup(body, "password").s| <= 32
  {
    var name, email, password := Lookup(body, "name"), Lookup(body, "email"), Lookup(body, "password");
    if Conforms(CreateUserSchema, body, isEmail) {
      assert PropertyValid(CreateUserSchema[0], name, isEmail);
      assert Satisfies(IsString, name, isEmail) && Satisfies(IsNotEmpty, name, isEmail);
      assert PropertyValid(CreateUserSchema[1], email, isEmail);
      assert Satisfies(IsEmail, email, isEmail) && Satisfies(IsNotEmpty, email, isEmail);
      assert PropertyValid(CreateUserSchema[2], password, isEmail);
      assert Satisfies(MinLength(8), password, isEmail) && Satisfies(MaxLength(32), password, isEmail);
    }
  }

  /** A Create body missing any of the three properties is rejected. */
  lemma CreateRequiresAllFields(body: Body, isEmail: string -> bool)
    requires "name" !in body || "email" !in body || "password" !in body
    ensures !Conforms(CreateUserSchema, body, isEmail)
  {
    CreateConformsIff(body, isEmail);
  }

  /**
   * A body conforms to `UpdateUserDto` exactly when each property is absent
   * (or null), or else: `name` a string, `email` a string accepted by
   * `isEmail`, `password` a string of 8 to 32 characters.
   */
  lemma UpdateConformsIff(body: Body, isEmail: string -> bool)
    ensures Conforms(UpdateUserSchema, body, isEmail) <==>
              (var name, email, password := Lookup(body, "name"), Lookup(body, "email"), Lookup(body, "password");
               (name.JNull? || name.JUndefined? || name.JStr?) &&
               (email.JNull? || email.JUndefined? || (email.JStr? && isEmail(email.s))) &&
               (password.JNull? || password.JUndefined? || (password.JStr? && 8 <= |password.s| <= 32)))
  {
    var name, email, password := Lookup(body, "name"), Lookup(body, "email"), Lookup(body, "password");
    if Conforms(UpdateUserSchema, body, isEmail) {
      assert PropertyValid(UpdateUserSchema[0], name, isEmail);
      if !(name.JNull? || name.JUndefined?) {
        assert Satisfies(IsString, name, isEmail);
      }
      assert PropertyValid(UpdateUserSchema[1], email, isEmail);
      if !(email.JNull? || email.JUndefined?) {
        assert Satisfies(IsEmail, email, isEmail);
      }
      assert PropertyValid(UpdateUserSchema[2], password, isEmail);
      if !(password.JNull? || password.JUndefined?) {
        assert Satisfies(MinLength(8), password, isEmail) && Satisfies(MaxLength(32), password, isEmail);
      }
    }
  }

  /** Every Update property is optional: the empty body conforms. */
  lemma UpdateEmptyBodyConforms(isEmail: string -> bool)
    ensures Conforms(UpdateUserSchema, map[], isEmail)
  {
    UpdateConformsIff(map[], isEmail);
  }

  /** An empty name passes on Update but not on Create. */
  lemma EmptyNameUpdateOnly(body: Body, isEmail: string -> bool)
    requires Lookup(body, "name") == JStr("")
    ensures !Conforms(CreateUserSchema, body, isEmail)
    ensures Conforms(UpdateUserSchema, body, isEmail) <==> Conforms(UpdateUserSchema, body - {"name"}, isEmail)
  {
    CreateConformsIff(body, isEmail);
    UpdateConformsIff(body, isEmail);
    UpdateConformsIff(body - {"name"}, isEmail);
    assert Lookup(body - {"name"}, "email") == Lookup(body, "email");
    assert Lookup(body - {"name"}, "password") == Lookup(body, "password");
  }

  /** A password given on Update still needs 8 to 32 characters. */
  lemma UpdatePasswordLength(body: Body, isEmail: string -> bool)
    requires Lookup(body, "password").JStr?
    requires Conforms(UpdateUserSchema, body, isEmail)
    ensures 8 <= |Lookup(body, "password").s| <= 32
  {
    UpdateConformsIff(body, isEmail);
  }

  /** The validated Create input handed to the service. */
  datatype CreateUserDto = CreateUserDto(name: string, email: string, password: string)

  /** The validated Update input: None for a property the body leaves out. */
  datatype UpdateUserDto = UpdateUserDto(name: Option<string>, email: Option<string>, password: Option<string>)

  /** The Create DTO read from a conforming body. */
  function ToCreateDto(body: Body, isEmail: string -> bool): (dto: CreateUserDto)
    requires Conforms(CreateUserSchema, body, isEmail)
    ensures dto.name != "" && dto.email != "" && isEmail(dto.email)
    ensures 8 <= |dto.password| <= 32
    ensures Lookup(body, "name") == JStr(dto.name) && Lookup(body, "email") == JStr(dto.email)
    ensures Lookup(body, "password") == JStr(dto.password)
  {
    CreateConformsIff(body, isEmail);
    CreateUserDto(body["name"].s, body["email"].s, body["password"].s)
  }
}
