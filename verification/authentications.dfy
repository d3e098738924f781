/**
 * `AuthenticationsController#create` (POST /login): find the user by the exact email
 * given, check the password, and answer either a signed token carrying
 * `{user_id, email}` or the one 401 response used for every failure. The controller
 * skips `require_login`, so `Login` takes no Authorization header at all.
 */
module Authentications {
  import opened Wrappers
  import opened Http
  import opened RubySplit
  import opened UserModel
  import opened Application

  /** `params[:key]` as a string; an absent key and an explicit null both read as nil. */
  function ParamString(params: map<string, Param>, key: string): (v: Option<string>)
    ensures v.Some? <==> key in params && params[key].PStr?
    ensures v.Some? ==> params[key] == PStr(v.value)
  {
    if key in params && params[key].PStr? then Some(params[key].s) else None
  }

  /** `User.find_by(email: params[:email])`: the first row whose email is exactly the one given. */
  function LoginUser(rows: seq<User>, params: map<string, Param>): (u: Option<User>)
    ensures u.Some? ==> u.value in rows && ParamString(params, "email") == Some(u.value.email)
    ensures u.None? ==> forall i :: 0 <= i < |rows| ==> ParamString(params, "email") != Some(rows[i].email)
  {
    match ParamString(params, "email")
    case None => None
    case Some(e) =>
      (match IndexOfEmail(rows, e)
       case None => None
       case Some(k) => Some(rows[k]))
  }

  /** The claims a login token carries. */
  function TokenPayload(u: User): (p: Payload)
    ensures ClaimedUserId(p) == Some(u.id)
    ensures p.Keys == {"user_id", "email"} && p["email"] == JStr(u.email)
  {
    map["user_id" := JInt(u.id), "email" := JStr(u.email)]
  }

  /** The success response around a freshly issued token. */
  function LoggedIn(token: string): Response {
    Response(200, JObj(map[
      "data" := JStr(token),
      "status" := JInt(200),
      "message" := JStr("You are logged in successfully")]))
  }

  /**
   * POST /login. `authenticate(user, password)` stands for bcrypt's digest comparison;
   * a missing password reaches it as nil.
   */
  function Login(jwt: Jwt, authenticate: (User, Option<string>) -> bool,
                 rows: seq<User>, params: map<string, Param>): (r: Response)
    ensures r.status == 200 || r == Unauthorized()
    ensures r.status == 200 <==> LoginUser(rows, params).Some?
                                 && authenticate(LoginUser(rows, params).value, ParamString(params, "password"))
    ensures r.status == 200 ==> r == LoggedIn(EncodeToken(jwt, TokenPayload(LoginUser(rows, params).value)))
  {
    match LoginUser(rows, params)
    case Some(u) =>
      if authenticate(u, ParamString(params, "password")) then LoggedIn(EncodeToken(jwt, TokenPayload(u)))
      else Unauthorized()
    case None => Unauthorized()
  }

  // ---------------------------------------------------------------------------
  // Lemmas

  /** In a well-formed table, the user login finds is the one row holding exactly that email. */
  lemma {:induction false} LoginUserIsTheRow(rows: seq<User>, nextId: int, params: map<string, Param>, k: nat)
    requires TableOk(rows, nextId)
    requires k < |rows| && ParamString(params, "email") == Some(rows[k].email)
    ensures LoginUser(rows, params) == Some(rows[k])
  {
    var j := IndexOfEmail(rows, rows[k].email);
    assert j.Some?;
    if j.value != k {
      assert SameEmail(rows[j.value], rows[k]);
    }
  }

  /**
   * Login succeeds exactly when some stored user has precisely the given email and the
   * password authenticates against that user.
   */
  lemma {:induction false} LoginSucceedsIff(jwt: Jwt, authenticate: (User, Option<string>) -> bool,
                                            rows: seq<User>, nextId: int, params: map<string, Param>)
    requires TableOk(rows, nextId)
    ensures Login(jwt, authenticate, rows, params).status == 200
            <==> exists k :: 0 <= k < |rows| && ParamString(params, "email") == Some(rows[k].email)
                             && authenticate(rows[k], ParamString(params, "password"))
  {
    var u := LoginUser(rows, params);
    if u.Some? {
      var k :| 0 <= k < |rows| && rows[k] == u.value;
      LoginUserIsTheRow(rows, nextId, params, k);
    } else {
      assert forall k :: 0 <= k < |rows| ==> ParamString(params, "email") != Some(rows[k].email);
    }
  }

  /** Unknown email, wrong password and missing parameters all get the same 401 body. */
  lemma {:induction false} LoginFailuresLookAlike(jwt: Jwt, authenticate: (User, Option<string>) -> bool,
                                                  rows: seq<User>, params: map<string, Param>)
    ensures "email" !in params ==> Login(jwt, authenticate, rows, params) == Unauthorized()
    ensures (forall i :: 0 <= i < |rows| ==> ParamString(params, "email") != Some(rows[i].email))
            ==> Login(jwt, authenticate, rows, params) == Unauthorized()
    ensures LoginUser(rows, params).Some?
            && !authenticate(LoginUser(rows, params).value, ParamString(params, "password"))
            ==> Login(jwt, authenticate, rows, params) == Unauthorized()
  {
  }

  /**
   * The end-to-end promise: with a sound JWT codec, the token a successful login hands
   * out, sent back as "Bearer <token>", passes the gate, resolves to the same user,
   * and `/me` answers with that user's projection.
   */
  lemma {:induction false} LoginTokenResolves(jwt: Jwt, authenticate: (User, Option<string>) -> bool,
                                              rows: seq<User>, nextId: int, params: map<string, Param>,
                                              k: nat, urlFor: string -> string)
    requires Sound(jwt) && TableOk(rows, nextId)
    requires k < |rows| && ParamString(params, "email") == Some(rows[k].email)
    requires authenticate(rows[k], ParamString(params, "password"))
    ensures Login(jwt, authenticate, rows, params) == LoggedIn(EncodeToken(jwt, TokenPayload(rows[k])))
    ensures var header := Some("Bearer " + EncodeToken(jwt, TokenPayload(rows[k])));
            && RequireLogin(jwt, header, rows) == None
            && CurrentUserRaw(jwt, header, rows) == Some(rows[k])
            && Me(jwt, header, rows, urlFor) == UserFromToken(rows[k], urlFor)
  {
    LoginUserIsTheRow(rows, nextId, params, k);
    IssuedTokenPassesGate(jwt, rows, nextId, k);
  }

  /** A token issued for a stored row, presented as "Bearer <token>", resolves to that row. */
  lemma {:induction false} IssuedTokenPassesGate(jwt: Jwt, rows: seq<User>, nextId: int, k: nat)
    requires Sound(jwt) && TableOk(rows, nextId)
    requires k < |rows|
    ensures CurrentUserRaw(jwt, Some("Bearer " + EncodeToken(jwt, TokenPayload(rows[k]))), rows) == Some(rows[k])
  {
    var payload := TokenPayload(rows[k]);
    var token := EncodeToken(jwt, payload);
    assert jwt.decode(token) == Some(payload) && IsCompactToken(token);
    assert IsWord(token) by {
      forall i | 0 <= i < |token| ensures !IsSpace(token[i]) {
        assert IsTokenChar(token[i]);
      }
    }
    BearerTokenIsSecondWord(jwt, "", " ", token, "");
    assert "" + "Bearer" + " " + token + "" == "Bearer " + token;
    assert DecodedToken(jwt, Some("Bearer " + token)) == Verified(payload);
    FindByIdUnique(rows, nextId, k);
  }
}
