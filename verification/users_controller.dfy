/**
 * `UsersController`: the five user actions over the users table, the `before_action`
 * chain in front of them (`require_login` for every action but `create`, then
 * `set_user` for show, update and destroy), the `user_params` filter, and the
 * catch-all `rescue_from Exception` that turns a failed lookup into a 500.
 */
module UsersController {
  import opened Wrappers
  import opened Http
  import opened UserModel
  import opened Persistence
  import opened Application

  // ---------------------------------------------------------------------------
  // user_params

  /** The attributes `params.permit` lets through. */
  const Permitted: set<string> := {"name", "email", "avatar", "admin", "password"}

  /** The characters Ruby's `[[:space:]]` matches, which decide `String#blank?`. */
  predicate IsBlankChar(c: char) {
    c == ' ' || '\t' <= c <= '\r' || c == '\U{85}' || c == '\U{A0}' || c == '\U{1680}'
    || '\U{2000}' <= c <= '\U{200A}' || c == '\U{2028}' || c == '\U{2029}'
    || c == '\U{202F}' || c == '\U{205F}' || c == '\U{3000}'
  }

  /** `value.blank?`: nil, or a string of nothing but whitespace. */
  predicate IsBlank(p: Param) {
    p.PNull? || forall i :: 0 <= i < |p.s| ==> IsBlankChar(p.s[i])
  }

  /**
   * The first line of `user_params`: `params['avatar']` becomes nil when it is missing
   * or blank and stays as it is otherwise; no other parameter is touched.
   */
  function NormaliseAvatar(params: map<string, Param>): (r: map<string, Param>)
    ensures r.Keys == params.Keys + {"avatar"}
    ensures forall k :: k in params && k != "avatar" ==> r[k] == params[k]
    ensures "avatar" !in params || IsBlank(params["avatar"]) ==> r["avatar"] == PNull
    ensures "avatar" in params && !IsBlank(params["avatar"]) ==> r["avatar"] == params["avatar"]
  {
    params["avatar" := if "avatar" !in params || IsBlank(params["avatar"]) then PNull else params["avatar"]]
  }

  /** `params.permit(:name, :email, :avatar, :admin, :password)`. */
  function Permit(params: map<string, Param>): (r: map<string, Param>)
    ensures r.Keys == params.Keys * Permitted
    ensures forall k :: k in r ==> r[k] == params[k]
  {
    map k | k in params && k in Permitted :: params[k]
  }

  /** The strings ActiveModel's boolean type reads as false. */
  const FalseValues: set<string> := {"0", "f", "F", "false", "FALSE", "off", "OFF"}

  /** Casting a submitted string to the boolean `admin` column: "" is nil, the false spellings are false, anything else is true. */
  function CastBoolean(s: string): (b: Option<bool>)
    ensures b.None? <==> s == ""
    ensures b == Some(false) <==> s in FalseValues
  {
    if s == "" then None else Some(s !in FalseValues)
  }

  /** Casting a submitted value to a nullable string column (`name`) or attachment (`avatar`). */
  function CastString(p: Param): (r: Option<string>)
    ensures r.None? <==> p.PNull?
  {
    match p case PNull => None case PStr(s) => Some(s)
  }

  /** Casting a submitted value to the `admin` column. */
  function CastAdmin(p: Param): (r: Option<bool>)
    ensures p.PStr? ==> r == CastBoolean(p.s)
    ensures p.PNull? ==> r.None?
  {
    match p case PNull => None case PStr(s) => CastBoolean(s)
  }

  /**
   * `password=`: nil clears the digest, the empty string leaves it alone, anything else
   * stores `hashed`, the digest bcrypt computes for it.
   */
  function NewDigest(p: Param, current: Option<string>, hashed: string): (r: Option<string>)
    ensures p == PStr("") ==> r == current
    ensures p.PNull? ==> r.None?
    ensures p.PStr? && p.s != "" ==> r == Some(hashed)
  {
    match p
    case PNull => None
    case PStr(s) => if s == "" then current else Some(hashed)
  }

  /**
   * Assigning the permitted attributes to a record. Only the attributes present are
   * written; a nil email is held as "", a nil avatar detaches the file.
   */
  function Assign(u: User, attrs: map<string, Param>, hashed: string): (v: User)
    ensures v.id == u.id && v.createdAt == u.createdAt && v.updatedAt == u.updatedAt
    ensures "name" !in attrs ==> v.name == u.name
    ensures "email" !in attrs ==> v.email == u.email
    ensures "admin" !in attrs ==> v.admin == u.admin
    ensures "avatar" !in attrs ==> v.avatar == u.avatar
    ensures "password" !in attrs ==> v.passwordDigest == u.passwordDigest
    ensures "email" in attrs && attrs["email"].PStr? ==> v.email == attrs["email"].s
    ensures "email" in attrs && attrs["email"].PNull? ==> v.email == ""
    ensures "name" in attrs ==> v.name == CastString(attrs["name"])
    ensures "admin" in attrs ==> v.admin == CastAdmin(attrs["admin"])
    ensures "avatar" in attrs ==> v.avatar == CastString(attrs["avatar"])
    ensures "password" in attrs ==> v.passwordDigest == NewDigest(attrs["password"], u.passwordDigest, hashed)
  {
    u.(name := if "name" in attrs then CastString(attrs["name"]) else u.name,
       email := if "email" in attrs then CastString(attrs["email"]).GetOr("") else u.email,
       admin := if "admin" in attrs then CastAdmin(attrs["admin"]) else u.admin,
       passwordDigest := if "password" in attrs then NewDigest(attrs["password"], u.passwordDigest, hashed)
                         else u.passwordDigest,
       avatar := if "avatar" in attrs then CastString(attrs["avatar"]) else u.avatar)
  }

  /** `User.new`: a record not yet saved, with the column defaults (admin false). */
  const Blank: User := User(0, "", None, Some(false), None, None, 0, 0)

  /** `render json: @user.errors`: one array of messages per attribute. */
  function ErrorsJson(errors: map<string, seq<string>>): (j: Json)
    ensures j.JObj? && j.fields.Keys == errors.Keys
    ensures forall k :: k in errors ==> j.fields[k].JArr? && |j.fields[k].items| == |errors[k]|
    ensures forall k, i :: k in errors && 0 <= i < |errors[k]| ==> j.fields[k].items[i] == JStr(errors[k][i])
  {
    JObj(map k | k in errors :: JArr(seq(|errors[k]|, i requires 0 <= i < |errors[k]| => JStr(errors[k][i]))))
  }

  /** The body of GET /users: every stored user's projection, one per row, in store order. */
  function IndexBody(rows: seq<User>, urlFor: string -> string): (b: seq<Json>)
    ensures |b| == |rows|
    ensures forall i :: 0 <= i < |rows| ==> b[i] == JObj(PrepRawUser(rows[i], urlFor))
  {
    seq(|rows|, i requires 0 <= i < |rows| => JObj(PrepRawUser(rows[i], urlFor)))
  }

  /** The empty 204 answer of an action that renders nothing. */
  function NoContent(): Response {
    Response(204, JNull)
  }

  datatype Action = IndexAction | ShowAction | CreateAction | UpdateAction | DestroyAction {
    /** The actions `set_user` runs before. */
    predicate NeedsRecord() {
      this == ShowAction || this == UpdateAction || this == DestroyAction
    }
  }

  /**
   * One request to the users controller. The table outlives the request; `params` and
   * `user` (the `@user` instance variable) belong to it.
   */
  class Controller {
    const db: UserTable
    const jwt: Jwt
    const urlFor: string -> string
    var params: map<string, Param>
    var user: Option<User>

    ghost predicate Valid()
      reads this, db
    {
      db.Valid()
    }

    constructor (db: UserTable, jwt: Jwt, urlFor: string -> string, params: map<string, Param>)
      ensures this.db == db && this.jwt == jwt && this.urlFor == urlFor
      ensures this.params == params && user == None
    {
      this.db := db;
      this.jwt := jwt;
      this.urlFor := urlFor;
      this.params := params;
      user := None;
    }

    /**
     * `require_login`. As a side effect of `current_user_raw`, a verified token sets
     * `@user` to the row its `user_id` names (or nil).
     */
    method RequireLogin(header: Option<string>) returns (halt: Option<Response>)
      modifies this
      ensures halt == Application.RequireLogin(jwt, header, db.rows)
      ensures params == old(params)
      ensures user == if DecodedToken(jwt, header).Verified? then CurrentUserRaw(jwt, header, db.rows) else old(user)
    {
      if DecodedToken(jwt, header).Verified? {
        user := CurrentUserRaw(jwt, header, db.rows);
      }
      halt := Application.RequireLogin(jwt, header, db.rows);
    }

    /** `set_user`: `User.find(params[:id])`, which raises when there is no such row. */
    method SetUser(id: int) returns (k: Option<nat>)
      modifies this
      ensures k == IndexOfId(db.rows, id)
      ensures params == old(params)
      ensures k.Some? ==> user == Some(db.rows[k.value])
      ensures k.None? ==> user == old(user)
    {
      k := IndexOfId(db.rows, id);
      if k.Some? {
        user := Some(db.rows[k.value]);
      }
    }

    /** `user_params`: normalise the avatar in `params` itself, then permit. */
    method UserParams() returns (attrs: map<string, Param>)
      modifies this
      ensures params == NormaliseAvatar(old(params)) && user == old(user)
      ensures attrs == Permit(params)
    {
      params := NormaliseAvatar(params);
      attrs := Permit(params);
    }

    /** GET /users. */
    method Index() returns (r: Response)
      ensures r == Response(200, JArr(IndexBody(db.rows, urlFor)))
    {
      r := Response(200, JArr(IndexBody(db.rows, urlFor)));
    }

    /** GET /users/:id, once `set_user` has found the record. */
    method Show() returns (r: Response)
      requires user.Some?
      ensures r == Response(200, JObj(PrepRawUser(user.value, urlFor)))
    {
      r := Response(200, JObj(PrepRawUser(user.value, urlFor)));
    }

    /** POST /users: build a record from the permitted params and save it. */
    method Create(hashed: string, now: int) returns (r: Response)
      requires Valid()
      modifies this, db
      ensures Valid()
      ensures var u := Assign(Blank, Permit(NormaliseAvatar(old(params))), hashed);
              var errors := Errors(old(db.rows), u, None);
              && params == NormaliseAvatar(old(params))
              && (errors == map[] ==>
                    var saved := Inserted(u, old(db.nextId), now);
                    && db.rows == old(db.rows) + [saved] && db.nextId == old(db.nextId) + 1
                    && user == Some(saved)
                    && r == Response(201, JObj(PrepRawUser(saved, urlFor))))
              && (errors != map[] ==>
                    && db.rows == old(db.rows) && db.nextId == old(db.nextId)
                    && user == Some(u)
                    && r == Response(422, ErrorsJson(errors)))
    {
      var attrs := UserParams();
      var u := Assign(Blank, attrs, hashed);
      var errors, saved := db.Insert(u, now);
      user := Some(saved);
      if errors == map[] {
        r := Response(201, JObj(PrepRawUser(saved, urlFor)));
      } else {
        r := Response(422, ErrorsJson(errors));
      }
    }

    /** PATCH /users/:id: assign the permitted params to the record `set_user` found at position `k`, then save. */
    method Update(k: nat, hashed: string, now: int) returns (r: Response)
      requires Valid()
      requires k < |db.rows| && user == Some(db.rows[k])
      modifies this, db
      ensures Valid() && db.nextId == old(db.nextId)
      ensures var u := Assign(old(db.rows)[k], Permit(NormaliseAvatar(old(params))), hashed);
              var errors := Errors(old(db.rows), u, Some(u.id));
              && params == NormaliseAvatar(old(params))
              && (errors == map[] ==>
                    var saved := Resaved(old(db.rows)[k], u, now);
                    && db.rows == old(db.rows)[k := saved]
                    && user == Some(saved)
                    && r == Response(200, JObj(PrepRawUser(saved, urlFor))))
              && (errors != map[] ==>
                    && db.rows == old(db.rows)
                    && user == Some(u)
                    && r == Response(422, ErrorsJson(errors)))
    {
      var attrs := UserParams();
      var u := Assign(db.rows[k], attrs, hashed);
      var errors, saved := db.Update(k, u, now);
      user := Some(saved);
      if errors == map[] {
        r := Response(200, JObj(PrepRawUser(saved, urlFor)));
      } else {
        r := Response(422, ErrorsJson(errors));
      }
    }

    /** DELETE /users/:id: destroy the record `set_user` found at position `k`. */
    method Destroy(k: nat) returns (r: Response)
      requires Valid()
      requires k < |db.rows| && user == Some(db.rows[k])
      modifies db
      ensures Valid() && db.nextId == old(db.nextId)
      ensures db.rows == RemoveAt(old(db.rows), k)
      ensures r == NoContent()
    {
      db.Delete(k);
      r := NoContent();
    }

    /**
     * A whole request: the `before_action` chain, the action, and `rescue_from
     * Exception` for the record `set_user` cannot find. Nothing here looks at who the
     * authenticated user is: any valid token may show, update or destroy any record.
     */
    method Process(action: Action, header: Option<string>, id: int, hashed: string, now: int)
      returns (r: Response)
      requires Valid()
      modifies this, db
      ensures Valid()
      ensures action != CreateAction && CurrentUserRaw(jwt, header, old(db.rows)).None?
              ==> r == Unauthorized() && db.rows == old(db.rows) && db.nextId == old(db.nextId)
      ensures action.NeedsRecord() && CurrentUserRaw(jwt, header, old(db.rows)).Some?
              && IndexOfId(old(db.rows), id).None?
              ==> r == InternalServerError() && db.rows == old(db.rows) && db.nextId == old(db.nextId)
      ensures action == IndexAction && CurrentUserRaw(jwt, header, old(db.rows)).Some?
              ==> r == Response(200, JArr(IndexBody(old(db.rows), urlFor)))
                  && db.rows == old(db.rows) && db.nextId == old(db.nextId)
      ensures action == ShowAction && CurrentUserRaw(jwt, header, old(db.rows)).Some?
              && IndexOfId(old(db.rows), id).Some?
              ==> r == Response(200, JObj(PrepRawUser(old(db.rows)[IndexOfId(old(db.rows), id).value], urlFor)))
                  && db.rows == old(db.rows) && db.nextId == old(db.nextId)
      ensures action == CreateAction
              ==> var errors := Errors(old(db.rows), Assign(Blank, Permit(NormaliseAvatar(old(params))), hashed), None);
                  && (errors == map[] ==>
                        var saved := Inserted(Assign(Blank, Permit(NormaliseAvatar(old(params))), hashed), old(db.nextId), now);
                        && db.rows == old(db.rows) + [saved] && db.nextId == old(db.nextId) + 1
                        && r == Response(201, JObj(PrepRawUser(saved, urlFor))))
                  && (errors != map[] ==>
                        r == Response(422, ErrorsJson(errors)) && db.rows == old(db.rows) && db.nextId == old(db.nextId))
      ensures action == UpdateAction && CurrentUserRaw(jwt, header, old(db.rows)).Some?
              && IndexOfId(old(db.rows), id).Some?
              ==> var k := IndexOfId(old(db.rows), id).value;
                  var u := Assign(old(db.rows)[k], Permit(NormaliseAvatar(old(params))), hashed);
                  var errors := Errors(old(db.rows), u, Some(id));
                  && (errors == map[] ==>
                        var saved := Resaved(old(db.rows)[k], u, now);
                        && db.rows == old(db.rows)[k := saved] && db.nextId == old(db.nextId)
                        && r == Response(200, JObj(PrepRawUser(saved, urlFor))))
                  && (errors != map[] ==>
                        r == Response(422, ErrorsJson(errors)) && db.rows == old(db.rows) && db.nextId == old(db.nextId))
      ensures action == DestroyAction && CurrentUserRaw(jwt, header, old(db.rows)).Some?
              && IndexOfId(old(db.rows), id).Some?
              ==> r == NoContent() && db.rows == RemoveAt(old(db.rows), IndexOfId(old(db.rows), id).value)
                  && db.nextId == old(db.nextId)
    {
      if action != CreateAction {
        var halt := RequireLogin(header);
        if halt.Some? {
          return halt.value;
        }
      }
      var k: Option<nat> := None;
      if action.NeedsRecord() {
        k := SetUser(id);
        if k.None? {
          return InternalServerError();
        }
      }
      match action
      case IndexAction => r := Index();
      case ShowAction => r := Show();
      case CreateAction => r := Create(hashed, now);
      case UpdateAction => r := Update(k.value, hashed, now);
      case DestroyAction => r := Destroy(k.value);
    }
  }

  // ---------------------------------------------------------------------------
  // Lemmas

  /** `user_params` never lets anything but the five permitted attributes through, and always carries an avatar entry. */
  lemma {:induction false} UserParamsArePermitted(params: map<string, Param>)
    ensures Permit(NormaliseAvatar(params)).Keys <= Permitted
    ensures "avatar" in Permit(NormaliseAvatar(params))
    ensures forall k :: k in Permitted && k != "avatar" && k in params ==> Permit(NormaliseAvatar(params))[k] == params[k]
  {
  }

  /**
   * A missing or blank avatar is submitted as nil, so the record ends up with no
   * avatar: on create none is attached, and on update the stored one is detached.
   */
  lemma {:induction false} MissingAvatarDetaches(params: map<string, Param>, u: User, hashed: string)
    requires "avatar" !in params || IsBlank(params["avatar"])
    ensures Assign(u, Permit(NormaliseAvatar(params)), hashed).avatar == None
  {
  }

  /** The attributes no parameter can reach: id and timestamps are the target's own after a successful update. */
  lemma {:induction false} UpdateKeepsIdentity(before: User, attrs: map<string, Param>, hashed: string, now: int)
    ensures Resaved(before, Assign(before, attrs, hashed), now).id == before.id
    ensures Resaved(before, Assign(before, attrs, hashed), now).createdAt == before.createdAt
    ensures !Changed(before, Assign(before, attrs, hashed))
            ==> Resaved(before, Assign(before, attrs, hashed), now) == Assign(before, attrs, hashed)
    ensures Assign(before, attrs, hashed).avatar != before.avatar
            ==> Resaved(before, Assign(before, attrs, hashed), now).updatedAt == now
  {
  }

  /**
   * Re-submitting a user's own stored email, in any case, passes validation on update,
   * with or without a new password: the row's own email is never "taken".
   */
  lemma {:induction false} ResubmittingOwnEmailIsNotTaken(rows: seq<User>, nextId: int, k: nat, attrs: map<string, Param>, hashed: string)
    requires TableOk(rows, nextId) && k < |rows|
    requires "email" in attrs && attrs["email"].PStr? && Lower(attrs["email"].s) == Lower(rows[k].email)
    requires "password" !in attrs || attrs["password"].PStr?
    ensures IsValid(rows, Assign(rows[k], attrs, hashed), Some(rows[k].id))
  {
    StoredRowRevalidates(rows, nextId, k);
    var v := Assign(rows[k], attrs, hashed);
    assert v.email == attrs["email"].s && v.id == rows[k].id;
    assert RowOk(rows[k]);
    assert v.passwordDigest.Some?;
    EmailRulesIgnoreCase(rows, v.email, rows[k].email, Some(rows[k].id));
  }

  /** A create with the email "test" or "test2" is refused, whatever else is submitted. */
  lemma {:induction false} TestEmailCreateIsRefused(rows: seq<User>, params: map<string, Param>, hashed: string)
    requires "email" in params && (params["email"] == PStr("test") || params["email"] == PStr("test2"))
    ensures Errors(rows, Assign(Blank, Permit(NormaliseAvatar(params)), hashed), None) != map[]
  {
    var u := Assign(Blank, Permit(NormaliseAvatar(params)), hashed);
    assert u.email == "test" || u.email == "test2";
    TestEmailsAreInvalid(rows, u, None);
  }

  /** No entry of GET /users carries a password digest or a timestamp. */
  lemma {:induction false} IndexHidesSecrets(rows: seq<User>, urlFor: string -> string, i: nat)
    requires i < |rows|
    ensures IndexBody(rows, urlFor)[i].JObj?
    ensures var f := IndexBody(rows, urlFor)[i].fields;
            "password_digest" !in f && "created_at" !in f && "updated_at" !in f
    ensures IndexBody(rows, urlFor)[i].fields["id"] == JInt(rows[i].id)
  {
  }
}
