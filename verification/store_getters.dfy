/**
 * The Vuex root getters of the front end (`isAuthenticated`, `isAdmin`,
 * `loggedInUser`) over the `auth` module's state. Getters are pure reads of the state.
 */
module StoreGetters {
  import opened Wrappers
  import opened JsValues

  /**
   * `state.auth.user`: an object with properties, or a primitive (null before the user
   * is fetched).
   */
  datatype UserSlot = Prim(v: JsVal) | Obj(fields: map<string, JsVal>)

  /** The part of `state.auth` the getters and the route guard read. */
  datatype AuthState = AuthState(loggedIn: bool, user: UserSlot)

  /** ToBoolean of the slot: every object is truthy. */
  predicate SlotTruthy(u: UserSlot) {
    u.Obj? || Truthy(u.v)
  }

  /** Reading a property throws a TypeError exactly on null and undefined. */
  predicate Readable(u: UserSlot) {
    u.Obj? || !(u.v.Undefined? || u.v.Null?)
  }

  /**
   * `user.<key>` for the keys read here (`id`, `admin`): the object's own property or
   * undefined; primitives have no property of those names. None is the TypeError.
   */
  function Member(u: UserSlot, key: string): (r: Option<JsVal>)
    ensures r.Some? <==> Readable(u)
    ensures u.Obj? && key in u.fields ==> r == Some(u.fields[key])
    ensures u.Obj? && key !in u.fields ==> r == Some(Undefined)
  {
    if u.Obj? then Some(if key in u.fields then u.fields[key] else Undefined)
    else if u.v.Undefined? || u.v.Null? then None
    else Some(Undefined)
  }

  /** `isAuthenticated`: the module's `loggedIn` flag, passed through. */
  function IsAuthenticated(state: AuthState): (r: bool)
    ensures r <==> state.loggedIn
  {
    state.loggedIn
  }

  /** `loggedInUser`: the stored user, passed through. */
  function LoggedInUser(state: AuthState): (u: UserSlot)
    ensures u == state.user
  {
    state.user
  }

  /** `isAdmin`: a user is present, its admin is not (strictly) null, and it is loosely equal to true. */
  function IsAdmin(state: AuthState): (r: bool)
    ensures r ==> SlotTruthy(state.user)
  {
    if SlotTruthy(state.user) then
      var admin := Member(state.user, "admin").value;
      !admin.Null? && LooselyEqual(admin, Bool(true))
    else false
  }

  // ---------------------------------------------------------------------------
  // Lemmas

  /**
   * `isAdmin` holds exactly when the user is an object whose `admin` loosely equals
   * true; the `!== null` test never decides anything, since null is not loosely equal
   * to true.
   */
  lemma {:induction false} IsAdminIff(state: AuthState)
    ensures IsAdmin(state) <==> state.user.Obj? && "admin" in state.user.fields
                                && LooselyEqual(state.user.fields["admin"], Bool(true))
  {
    if state.user.Prim? && SlotTruthy(state.user) {
      assert Member(state.user, "admin") == Some(Undefined);
    }
  }

  /** No user, or an admin flag that is false, null or missing, means not an admin. */
  lemma {:induction false} IsAdminFalseCases(state: AuthState)
    ensures state.user == Prim(Null) || state.user == Prim(Undefined) ==> !IsAdmin(state)
    ensures state.user.Obj? && "admin" in state.user.fields
            && (state.user.fields["admin"] == Bool(false) || state.user.fields["admin"] == Null)
            ==> !IsAdmin(state)
    ensures state.user.Obj? && "admin" !in state.user.fields ==> !IsAdmin(state)
  {
    IsAdminIff(state);
  }

  /** Loose equality admits more than `true`: an admin flag of 1 or "1" also makes `isAdmin` hold. */
  lemma {:induction false} IsAdminIsLoose(fields: map<string, JsVal>)
    requires "admin" in fields && (fields["admin"] == Num(1) || fields["admin"] == Str("1"))
    ensures IsAdmin(AuthState(true, Obj(fields)))
  {
    IsAdminIff(AuthState(true, Obj(fields)));
    StringToNumberOfDecimal(1);
    assert Decimal(1) == "1";
  }
}
