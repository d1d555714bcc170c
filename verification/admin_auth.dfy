/**
 * Administrator authentication and the shape checks of the older figpack
 * API: a key comparison whose running time does not depend on where two
 * keys differ, the order in which a key is tried as a user's API key and
 * as the bootstrap key, and the validators of user records and of the
 * administrator data document.
 *
 * The user database and the BOOTSTRAP_KEY environment variable are inputs.
 * The validators take a JSON value, so that the checks of `typeof` and of
 * missing fields can be stated.
 */
module AdminAuth {
  import opened Common

  // ---------------------------------------------------------------------
  // `secureCompare`
  // ---------------------------------------------------------------------

  /** `charCodeAt`. */
  function Code(c: char): nat
  {
    c as int
  }

  /** JavaScript's `^` on non-negative 32-bit integers, one bit at a time from the lowest. */
  function Xor(x: nat, y: nat): nat
    decreases x + y
  {
    if x == 0 && y == 0 then 0
    else (if x % 2 != y % 2 then 1 else 0) + 2 * Xor(x / 2, y / 2)
  }

  /** JavaScript's `|` on non-negative 32-bit integers, one bit at a time from the lowest. */
  function Or(x: nat, y: nat): nat
    decreases x + y
  {
    if x == 0 && y == 0 then 0
    else (if x % 2 == 1 || y % 2 == 1 then 1 else 0) + 2 * Or(x / 2, y / 2)
  }

  /** The exclusive-or of two numbers is zero exactly when they are equal. */
  lemma {:induction false} XorZero(x: nat, y: nat)
    ensures Xor(x, y) == 0 <==> x == y
    decreases x + y
  {
    if x == 0 && y == 0 {
    } else {
      XorZero(x / 2, y / 2);
      if x % 2 == y % 2 && x / 2 == y / 2 {
        assert x == 2 * (x / 2) + x % 2 && y == 2 * (y / 2) + y % 2;
      }
    }
  }

  /** The or of two numbers is zero exactly when both are. */
  lemma {:induction false} OrZero(x: nat, y: nat)
    ensures Or(x, y) == 0 <==> x == 0 && y == 0
    decreases x + y
  {
    if !(x == 0 && y == 0) {
      OrZero(x / 2, y / 2);
    }
  }

  /**
   * `secureCompare`: the exclusive-or of every pair of character codes is
   * or-ed into `result`, and the strings are equal when nothing was set.
   * Every position is compared, wherever the first difference is.
   */
  method SecureCompare(a: string, b: string) returns (equal: bool, ghost comparisons: nat)
    ensures equal <==> a == b
    ensures |a| != |b| ==> !equal && comparisons == 0
    ensures |a| == |b| ==> comparisons == |a|
  {
    if |a| != |b| {
      return false, 0;
    }
    var result: nat := 0;
    comparisons := 0;
    for i := 0 to |a|
      invariant result == 0 <==> a[..i] == b[..i]
      invariant comparisons == i
    {
      var diff := Xor(Code(a[i]), Code(b[i]));
      XorZero(Code(a[i]), Code(b[i]));
      OrZero(result, diff);
      assert a[..i + 1] == a[..i] + [a[i]] && b[..i + 1] == b[..i] + [b[i]];
      result := Or(result, diff);
      comparisons := comparisons + 1;
    }
    assert a[..|a|] == a && b[..|b|] == b;
    equal := result == 0;
  }

  // ---------------------------------------------------------------------
  // `authenticateAdmin`
  // ---------------------------------------------------------------------

  datatype User = User(email: string, name: string, researchDescription: string, apiKey: string,
                       isAdmin: bool, createdAt: string)

  datatype AuthResult = AuthResult(isValid: bool, isAdmin: bool, user: Option<User>, isBootstrap: bool)

  const Rejected := AuthResult(false, false, None, false)

  /** `validateApiKey`: the user holding the key (`None` when there is none or the lookup failed). */
  function ApiKeyResult(holder: Option<User>): (r: AuthResult)
    ensures r.isValid <==> holder.Some?
    ensures r.isValid ==> r.isAdmin == holder.value.isAdmin && r.user == holder && !r.isBootstrap
  {
    match holder
    case None => Rejected
    case Some(user) => AuthResult(true, user.isAdmin, Some(user), false)
  }

  /** What `validateBootstrapKey` answers: valid and administrator exactly when the key is the configured one. */
  function BootstrapResult(key: string, bootstrapKey: Option<string>): AuthResult
  {
    if bootstrapKey.None? || bootstrapKey.value == "" || key != bootstrapKey.value then Rejected
    else AuthResult(true, true, None, true)
  }

  /** `validateBootstrapKey`; a missing or empty BOOTSTRAP_KEY accepts no key. */
  method ValidateBootstrapKey(key: string, bootstrapKey: Option<string>) returns (r: AuthResult)
    ensures r == BootstrapResult(key, bootstrapKey)
    ensures r.isValid <==> bootstrapKey.Some? && bootstrapKey.value != "" && key == bootstrapKey.value
  {
    if bootstrapKey.None? || bootstrapKey.value == "" {
      return Rejected;
    }
    var same, _ := SecureCompare(key, bootstrapKey.value);
    if !same {
      return Rejected;
    }
    return AuthResult(true, true, None, true);
  }

  /**
   * `authenticateAdmin`: the key of an administrator wins; any other key
   * (unknown, or a non-administrator's) is tried as the bootstrap key.
   */
  method AuthenticateAdmin(apiKey: string, holder: Option<User>, bootstrapKey: Option<string>) returns (r: AuthResult)
    ensures holder.Some? && holder.value.isAdmin ==> r == ApiKeyResult(holder)
    ensures !(holder.Some? && holder.value.isAdmin) ==> r == BootstrapResult(apiKey, bootstrapKey)
    ensures r.isValid ==> r.isAdmin
  {
    var apiKeyResult := ApiKeyResult(holder);
    if apiKeyResult.isValid && apiKeyResult.isAdmin {
      return apiKeyResult;
    }
    r := ValidateBootstrapKey(apiKey, bootstrapKey);
  }

  /** `authenticateUser`: any user's key wins; otherwise the key is tried as the bootstrap key. */
  method AuthenticateUser(apiKey: string, holder: Option<User>, bootstrapKey: Option<string>) returns (r: AuthResult)
    ensures holder.Some? ==> r == ApiKeyResult(holder)
    ensures holder.None? ==> r == BootstrapResult(apiKey, bootstrapKey)
  {
    var apiKeyResult := ApiKeyResult(holder);
    if apiKeyResult.isValid {
      return apiKeyResult;
    }
    r := ValidateBootstrapKey(apiKey, bootstrapKey);
  }

  /**
   * Administrator access is granted exactly to an administrator's key and
   * to the configured bootstrap key; a regular user's key that is not the
   * bootstrap key is refused.
   */
  lemma AdminAccess(apiKey: string, holder: Option<User>, bootstrapKey: Option<string>, r: AuthResult)
    requires holder.Some? && holder.value.isAdmin ==> r == ApiKeyResult(holder)
    requires !(holder.Some? && holder.value.isAdmin) ==> r == BootstrapResult(apiKey, bootstrapKey)
    ensures r.isValid <==>
              (holder.Some? && holder.value.isAdmin)
              || (bootstrapKey.Some? && bootstrapKey.value != "" && apiKey == bootstrapKey.value)
    ensures r.isValid ==> r.isAdmin
    ensures r.isBootstrap ==> !(holder.Some? && holder.value.isAdmin)
  {
  }

  // ---------------------------------------------------------------------
  // `validateUserData` and `validateAdminData`
  // ---------------------------------------------------------------------

  datatype Json =
    | Null
    | Bool(b: bool)
    | Num(n: real)
    | Str(s: string)
    | Arr(items: seq<Json>)
    | Obj(fields: map<string, Json>)

  /** A property read; `None` is `undefined`. */
  function Get(v: Json, key: string): Option<Json>
  {
    if v.Obj? && key in v.fields then Some(v.fields[key]) else None
  }

  /** `typeof`: `null` and arrays are "object" too. */
  function TypeOf(v: Option<Json>): string
  {
    match v
    case None => "undefined"
    case Some(Null) => "object"
    case Some(Bool(_)) => "boolean"
    case Some(Num(_)) => "number"
    case Some(Str(_)) => "string"
    case Some(Arr(_)) => "object"
    case Some(Obj(_)) => "object"
  }

  predicate IsString(v: Json, key: string) { TypeOf(Get(v, key)) == "string" }

  function StringField(v: Json, key: string): string
    requires IsString(v, key)
  {
    Get(v, key).value.s
  }

  /** The field tests of `validateUserData`, on a value whose fields can be read. */
  predicate UserFieldsValid(user: Json)
  {
    && IsString(user, "email") && IsString(user, "name") && IsString(user, "researchDescription")
    && IsString(user, "apiKey") && TypeOf(Get(user, "isAdmin")) == "boolean" && IsString(user, "createdAt")
    && '@' in StringField(user, "email")
    && |JsTrim(StringField(user, "name"))| > 0
    && |StringField(user, "apiKey")| > 0
  }

  /** `validateUserData`: an object with the six fields of a user, an email with '@', a name and an API key. */
  predicate ValidateUserData(user: Json)
  {
    TypeOf(Some(user)) == "object" && !user.Null? && UserFieldsValid(user)
  }

  /** `validateAdminData`: a list of users, each of them valid, and a version and modification time. */
  predicate ValidateAdminData(data: Json)
  {
    && TypeOf(Some(data)) == "object" && !data.Null?
    && Get(data, "users").Some? && Get(data, "users").value.Arr?
    && IsString(data, "version") && IsString(data, "lastModified")
    && forall u :: u in Get(data, "users").value.items ==> ValidateUserData(u)
  }

  /** A record built from a user's fields passes exactly when its email has '@', its name is not blank and its key is set. */
  lemma UserRecordValid(user: User)
    ensures ValidateUserData(Obj(map[
              "email" := Str(user.email), "name" := Str(user.name),
              "researchDescription" := Str(user.researchDescription), "apiKey" := Str(user.apiKey),
              "isAdmin" := Bool(user.isAdmin), "createdAt" := Str(user.createdAt)]))
            <==> '@' in user.email && |JsTrim(user.name)| > 0 && |user.apiKey| > 0
  {
  }

  /** Valid administrator data holds only valid users, and a list of valid users makes valid data. */
  lemma AdminDataUsers(data: Json)
    requires data.Obj? && IsString(data, "version") && IsString(data, "lastModified")
    requires Get(data, "users").Some? && Get(data, "users").value.Arr?
    ensures ValidateAdminData(data) <==>
              forall i :: 0 <= i < |Get(data, "users").value.items| ==> ValidateUserData(Get(data, "users").value.items[i])
  {
    var users := Get(data, "users").value.items;
    if forall i :: 0 <= i < |users| ==> ValidateUserData(users[i]) {
      forall u | u in users
        ensures ValidateUserData(u)
      {
        var i :| 0 <= i < |users| && users[i] == u;
      }
    }
  }

  // ---------------------------------------------------------------------
  // The validators as written: `null` is an object, and reading its fields throws
  // ---------------------------------------------------------------------

  /** The outcome of a validator call: an answer, or a thrown TypeError. */
  datatype Check = Answer(ok: bool) | TypeErrorThrown

  /**
   * `validateUserData` as written: `typeof null === 'object'` holds, so
   * for `null` the next test reads `null.email`, which throws.
   */
  function ValidateUserDataAsWritten(user: Json): (c: Check)
    ensures c == TypeErrorThrown <==> user.Null?
    ensures c.Answer? ==> c.ok == ValidateUserData(user)
  {
    if TypeOf(Some(user)) != "object" then Answer(false)
    else if user.Null? then TypeErrorThrown
    else Answer(UserFieldsValid(user))
  }

  /** `users.every(validateUserData)` as written: the first user that is not valid decides, a throw included. */
  function EveryUserAsWritten(users: seq<Json>): (c: Check)
    ensures c == Answer(true) <==> forall u :: u in users ==> ValidateUserData(u)
  {
    if |users| == 0 then Answer(true)
    else
      match ValidateUserDataAsWritten(users[0])
      case TypeErrorThrown => TypeErrorThrown
      case Answer(ok) => if ok then EveryUserAsWritten(users[1..]) else Answer(false)
  }

  /** `validateAdminData` as written: for `null` it reads `null.users`, which throws. */
  function ValidateAdminDataAsWritten(data: Json): (c: Check)
    ensures c == Answer(true) <==> ValidateAdminData(data)
  {
    if TypeOf(Some(data)) != "object" then Answer(false)
    else if data.Null? then TypeErrorThrown
    else if !(Get(data, "users").Some? && Get(data, "users").value.Arr?) then Answer(false)
    else if !IsString(data, "version") || !IsString(data, "lastModified") then Answer(false)
    else EveryUserAsWritten(Get(data, "users").value.items)
  }

  /**
   * The discrepancy: a `null` user, alone or in a user list, makes the
   * validators throw instead of answering false.
   */
  lemma NullThrows()
    ensures ValidateUserDataAsWritten(Null) == TypeErrorThrown
    ensures ValidateAdminDataAsWritten(Null) == TypeErrorThrown
    ensures ValidateAdminDataAsWritten(Obj(map["users" := Arr([Null]), "version" := Str("1"),
                                               "lastModified" := Str("")])) == TypeErrorThrown
    ensures !ValidateUserData(Null) && !ValidateAdminData(Null)
  {
    var data := Obj(map["users" := Arr([Null]), "version" := Str("1"), "lastModified" := Str("")]);
    assert Get(data, "users") == Some(Arr([Null]));
    assert [Null][1..] == [];
  }
}
