/**
 * Where the two halves meet. After logging in, the front end's auth module fetches
 * GET /me and stores the response's `data` member as `state.auth.user` (the
 * `propertyName: 'data'` of its user endpoint), with `loggedIn` true. These lemmas
 * follow a stored row through `prep_raw_user` into that state and on to the
 * `isAdmin` getter and the route guard.
 */
module Session {
  import opened Wrappers
  import opened Http
  import opened UserModel
  import opened Application
  import opened JsValues
  import opened StoreGetters
  import opened RouteGuard

  /** JSON values that parse to primitives. */
  predicate IsScalar(j: Json) {
    j.JNull? || j.JBool? || j.JInt? || j.JStr?
  }

  /** `JSON.parse` of a scalar. */
  function ToJs(j: Json): (v: JsVal)
    requires IsScalar(j)
    ensures j.JNull? <==> v.Null?
    ensures j.JBool? <==> v.Bool?
    ensures j.JInt? ==> v == Num(j.i)
  {
    match j
    case JNull => Null
    case JBool(b) => Bool(b)
    case JInt(i) => Num(i)
    case JStr(s) => Str(s)
  }

  /** Every value of the projection is a scalar. */
  lemma {:induction false} ProjectionIsScalar(u: User, urlFor: string -> string)
    ensures forall k :: k in PrepRawUser(u, urlFor) ==> IsScalar(PrepRawUser(u, urlFor)[k])
  {
  }

  /** The auth state once the user has been fetched from /me. */
  function FetchedState(u: User, urlFor: string -> string): (s: AuthState)
    ensures s.loggedIn && s.user.Obj?
    ensures s.user.fields.Keys == PrepRawUser(u, urlFor).Keys
    ensures forall k :: k in PrepRawUser(u, urlFor)
                        ==> (IsScalar(PrepRawUser(u, urlFor)[k]) && s.user.fields[k] == ToJs(PrepRawUser(u, urlFor)[k]))
  {
    ProjectionIsScalar(u, urlFor);
    var data := PrepRawUser(u, urlFor);
    AuthState(true, Obj(map k | k in data :: ToJs(data[k])))
  }

  /** The front end's `isAdmin` agrees with the server's admin flag. */
  lemma {:induction false} FrontAdminMatchesBack(u: User, urlFor: string -> string)
    ensures IsAdmin(FetchedState(u, urlFor)) <==> u.admin == Some(true)
  {
    var state := FetchedState(u, urlFor);
    IsAdminIff(state);
    if u.admin == Some(true) {
      assert state.user.fields["admin"] == Bool(true);
    }
  }

  /** The logged-in user may open their own page, whatever the path before the id. */
  lemma {:induction false} FrontGuardLetsSelfThrough(u: User, urlFor: string -> string, prefix: string)
    ensures Guard(prefix + "/" + Decimal(u.id), FetchedState(u, urlFor)) == Continue
  {
    var state := FetchedState(u, urlFor);
    assert state.user.fields["id"] == Num(u.id);
    SelfNotRedirected(prefix, u.id, state.user.fields);
  }

  /**
   * A non-admin is sent to "/" from another user's page: the projection has no admin
   * key for them, so `user.admin` is undefined.
   */
  lemma {:induction false} FrontGuardRedirectsOthers(u: User, urlFor: string -> string, prefix: string, other: int)
    requires u.admin != Some(true) && other != u.id
    ensures Guard(prefix + "/" + Decimal(other), FetchedState(u, urlFor)) == Redirect("/")
  {
    var state := FetchedState(u, urlFor);
    assert state.user.fields["id"] == Num(u.id);
    assert "admin" !in state.user.fields;
    OtherIdRedirected(prefix, u.id, other, state.user.fields);
  }

  /** An admin is never redirected. */
  lemma {:induction false} FrontGuardLetsAdminThrough(u: User, urlFor: string -> string, fullPath: string)
    requires u.admin == Some(true)
    ensures Guard(fullPath, FetchedState(u, urlFor)) == Continue
  {
    var state := FetchedState(u, urlFor);
    assert state.user.fields["admin"] == Bool(true);
    AdminNeverRedirected(fullPath, state.user.fields);
  }
}
