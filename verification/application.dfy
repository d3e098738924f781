/**
 * `ApplicationController`: the bearer-token gate every protected action runs first
 * (`decoded_token`, `current_user_raw`, `require_login`), the `/me` action
 * (`user_from_token`) and the projection of a stored user to what may be sent out
 * (`prep_raw_user`).
 */
module Application {
  import opened Wrappers
  import opened Http
  import opened RubySplit
  import opened UserModel

  /** A JWT claims set (RFC 7519 section 4): a JSON object. */
  type Payload = map<string, Json>

  /**
   * The HS256 codec (RFC 7518 section 3.2) with the server's secret built in. `decode`
   * answers None for every token it refuses (malformed, bad signature, wrong
   * algorithm), which is how `JWT::DecodeError` reaches the controller.
   */
  datatype Jwt = Jwt(encode: Payload -> string, decode: string -> Option<Payload>)

  /** The characters of a JWS compact serialization: base64url and the '.' separators. */
  predicate IsTokenChar(c: char) {
    'A' <= c <= 'Z' || 'a' <= c <= 'z' || '0' <= c <= '9' || c == '-' || c == '_' || c == '.'
  }

  predicate IsCompactToken(t: string) {
    t != [] && forall i :: 0 <= i < |t| ==> IsTokenChar(t[i])
  }

  /** What the model relies on from the JWT library: tokens it issues are compact and decode back to their claims. */
  ghost predicate Sound(jwt: Jwt) {
    forall p :: jwt.decode(jwt.encode(p)) == Some(p) && IsCompactToken(jwt.encode(p))
  }

  /** `encode_token(payload)`: under a sound codec, a compact token that decodes back to the payload. */
  function EncodeToken(jwt: Jwt, payload: Payload): (t: string)
    ensures Sound(jwt) ==> jwt.decode(t) == Some(payload) && IsCompactToken(t)
  {
    jwt.encode(payload)
  }

  /**
   * The three results of `decoded_token`: nil (no header, or its first word is not
   * "Bearer"), `[]` (the decoder refused the token), or the verified claims.
   */
  datatype Decoded = NoToken | DecodeFailed | Verified(payload: Payload)

  /** `JWT.decode` applied to `auth_header.split(' ')[1]`, which is nil when the header has one word. */
  function DecodeWord(jwt: Jwt, token: Option<string>): Decoded {
    match token
    case None => DecodeFailed
    case Some(t) =>
      match jwt.decode(t)
      case None => DecodeFailed
      case Some(p) => Verified(p)
  }

  /**
   * `decoded_token`: no token unless the header's first word is exactly "Bearer";
   * then the verified claims of the second word, or a failure when there is no second
   * word or the decoder refuses it.
   */
  function DecodedToken(jwt: Jwt, header: Option<string>): (d: Decoded)
    ensures d == NoToken <==> header.None? || Split(header.value) == [] || Split(header.value)[0] != "Bearer"
    ensures d.Verified? <==> header.Some? && |Split(header.value)| >= 2 && Split(header.value)[0] == "Bearer"
                             && jwt.decode(Split(header.value)[1]).Some?
    ensures d.Verified? ==> jwt.decode(Split(header.value)[1]) == Some(d.payload)
  {
    match header
    case None => NoToken
    case Some(h) =>
      var words := Split(h);
      if |words| == 0 || words[0] != "Bearer" then NoToken
      else DecodeWord(jwt, if |words| < 2 then None else Some(words[1]))
  }

  /** `decoded_token[0]['user_id']` when it is an integer. */
  function ClaimedUserId(p: Payload): Option<int> {
    if "user_id" in p && p["user_id"].JInt? then Some(p["user_id"].i) else None
  }

  /**
   * `current_user_raw`: the stored row named by the verified token's `user_id`, or
   * nil. The row is looked up afresh in the current table, never taken from the token.
   */
  function CurrentUserRaw(jwt: Jwt, header: Option<string>, rows: seq<User>): (u: Option<User>)
    ensures u.Some? ==> u.value in rows
    ensures u.Some? ==> DecodedToken(jwt, header).Verified?
                        && ClaimedUserId(DecodedToken(jwt, header).payload) == Some(u.value.id)
  {
    match DecodedToken(jwt, header)
    case Verified(p) =>
      (match ClaimedUserId(p)
       case Some(id) => FindById(rows, id)
       case None => None)
    case _ => None
  }

  /** `require_login`: the response that halts the request, if any. */
  function RequireLogin(jwt: Jwt, header: Option<string>, rows: seq<User>): (halt: Option<Response>)
    ensures halt.Some? <==> CurrentUserRaw(jwt, header, rows).None?
    ensures halt.Some? ==> halt.value == Unauthorized()
  {
    if CurrentUserRaw(jwt, header, rows).None? then Some(Unauthorized()) else None
  }

  // ---------------------------------------------------------------------------
  // Lemmas about the gate

  /** Without an Authorization header every protected request gets the 401 response. */
  lemma {:induction false} NoHeaderIsUnauthorized(jwt: Jwt, rows: seq<User>)
    ensures DecodedToken(jwt, None) == NoToken
    ensures RequireLogin(jwt, None, rows) == Some(Unauthorized())
  {
  }

  /**
   * A header whose first word is anything but the exact, case-sensitive "Bearer"
   * (for example "Bears <token>") yields no token, and the request gets 401.
   */
  lemma {:induction false} WrongSchemeIsUnauthorized(jwt: Jwt, rows: seq<User>, lead: string, scheme: string, rest: string)
    requires AllSpace(lead)
    requires IsWord(scheme) && scheme != "Bearer"
    requires rest == [] || IsSpace(rest[0])
    ensures DecodedToken(jwt, Some(lead + scheme + rest)) == NoToken
    ensures RequireLogin(jwt, Some(lead + scheme + rest), rows) == Some(Unauthorized())
  {
    assert lead + scheme + rest == lead + (scheme + rest);
    SplitIgnoresLeadingSpace(lead, scheme + rest);
    SplitWordFirst(scheme, rest);
  }

  /**
   * The token handed to the decoder is the second word: leading whitespace and
   * repeated separators are skipped, and words after the token are dropped.
   */
  lemma {:induction false} BearerTokenIsSecondWord(jwt: Jwt, lead: string, sep: string, token: string, rest: string)
    requires AllSpace(lead)
    requires sep != [] && AllSpace(sep)
    requires IsWord(token)
    requires rest == [] || IsSpace(rest[0])
    ensures DecodedToken(jwt, Some(lead + "Bearer" + sep + token + rest)) == DecodeWord(jwt, Some(token))
  {
    assert IsWord("Bearer");
    SplitTwoWords(lead, "Bearer", sep, token, rest);
  }

  /** A header of nothing but whitespace yields no token: 401. */
  lemma {:induction false} BlankHeaderIsUnauthorized(jwt: Jwt, rows: seq<User>, h: string)
    requires AllSpace(h)
    ensures DecodedToken(jwt, Some(h)) == NoToken
    ensures RequireLogin(jwt, Some(h), rows) == Some(Unauthorized())
  {
    SplitIgnoresLeadingSpace(h, "");
    assert h + "" == h;
  }

  /** "Bearer" with no second word hands nil to the decoder, which fails: 401. */
  lemma {:induction false} LoneBearerIsUnauthorized(jwt: Jwt, rows: seq<User>, lead: string, trail: string)
    requires AllSpace(lead) && AllSpace(trail)
    ensures DecodedToken(jwt, Some(lead + "Bearer" + trail)) == DecodeFailed
    ensures RequireLogin(jwt, Some(lead + "Bearer" + trail), rows) == Some(Unauthorized())
  {
    assert IsWord("Bearer");
    SplitPaddedWord(lead, "Bearer", trail);
    SplitIgnoresLeadingSpace(trail, "");
    assert trail + "" == trail;
  }

  /**
   * The converse of `CurrentUserRaw`'s contract: in a well-formed table, a verified
   * token whose `user_id` is a stored row's id yields that row.
   */
  lemma {:induction false} VerifiedClaimFindsRow(jwt: Jwt, header: Option<string>, rows: seq<User>, nextId: int, k: nat)
    requires TableOk(rows, nextId) && k < |rows|
    requires DecodedToken(jwt, header).Verified?
    requires ClaimedUserId(DecodedToken(jwt, header).payload) == Some(rows[k].id)
    ensures CurrentUserRaw(jwt, header, rows) == Some(rows[k])
  {
    FindByIdUnique(rows, nextId, k);
  }

  /** A token the decoder refuses leaves the request without a user: 401. */
  lemma {:induction false} DecodeFailureIsUnauthorized(jwt: Jwt, rows: seq<User>, token: string)
    requires IsWord(token)
    requires jwt.decode(token) == None
    ensures DecodedToken(jwt, Some("Bearer " + token)) == DecodeFailed
    ensures RequireLogin(jwt, Some("Bearer " + token), rows) == Some(Unauthorized())
  {
    BearerTokenIsSecondWord(jwt, "", " ", token, "");
    assert "" + "Bearer" + " " + token + "" == "Bearer " + token;
  }

  // ---------------------------------------------------------------------------
  // prep_raw_user

  /** The stored columns of a row, as `slice` sees them. */
  function Columns(u: User): map<string, Json> {
    map[
      "id" := JInt(u.id),
      "email" := JStr(u.email),
      "name" := (match u.name case Some(n) => JStr(n) case None => JNull),
      "admin" := (match u.admin case Some(a) => JBool(a) case None => JNull),
      "password_digest" := (match u.passwordDigest case Some(d) => JStr(d) case None => JNull),
      "created_at" := JInt(u.createdAt),
      "updated_at" := JInt(u.updatedAt)
    ]
  }

  /** `record.slice(*keys)`. */
  function Slice(m: map<string, Json>, keys: set<string>): map<string, Json> {
    map k | k in m && k in keys :: m[k]
  }

  /** The keys every projection has. */
  const PublicKeys: set<string> := {"id", "email", "name", "avatar"}

  /**
   * `prep_raw_user`: id, email, name and avatar (its URL, or null when none is
   * attached), and admin only when the user's admin flag is true. The password digest
   * and the timestamps never appear; every value shown is the stored one.
   */
  function PrepRawUser(u: User, urlFor: string -> string): (m: map<string, Json>)
    ensures m.Keys == PublicKeys + (if u.admin == Some(true) then {"admin"} else {})
    ensures "password_digest" !in m && "created_at" !in m && "updated_at" !in m
    ensures forall k :: k in m && k != "avatar" ==> m[k] == Columns(u)[k]
    ensures m["avatar"] == (match u.avatar case Some(blob) => JStr(urlFor(blob)) case None => JNull)
    ensures "admin" in m ==> m["admin"] == JBool(true)
  {
    var avatar := match u.avatar case Some(blob) => JStr(urlFor(blob)) case None => JNull;
    var row := if u.admin == Some(true) then Slice(Columns(u), {"id", "email", "name", "admin"})
               else Slice(Columns(u), {"id", "email", "name"});
    row["avatar" := avatar]
  }

  /**
   * A nil admin flag and a false one look alike from outside: the projection is the
   * same, so nothing rendered tells them apart.
   */
  lemma {:induction false} AdminFalseAndNilLookAlike(u: User, urlFor: string -> string)
    ensures PrepRawUser(u.(admin := None), urlFor) == PrepRawUser(u.(admin := Some(false)), urlFor)
  {
  }

  /** `user_from_token`, once the gate has found the user: 200 with the projection under `data`. */
  function UserFromToken(u: User, urlFor: string -> string): (r: Response)
    ensures r.status == 200 && r.body.JObj? && r.body.fields.Keys == {"data", "status"}
    ensures r.body.fields["data"] == JObj(PrepRawUser(u, urlFor)) && r.body.fields["status"] == JInt(r.status)
  {
    Response(200, JObj(map["data" := JObj(PrepRawUser(u, urlFor)), "status" := JInt(200)]))
  }

  /** GET /me: the gate, then `user_from_token`. */
  function Me(jwt: Jwt, header: Option<string>, rows: seq<User>, urlFor: string -> string): (r: Response)
    ensures r.status == 200 || r == Unauthorized()
    ensures r.status == 200 <==> CurrentUserRaw(jwt, header, rows).Some?
    ensures r.status == 200 ==> r == UserFromToken(CurrentUserRaw(jwt, header, rows).value, urlFor)
  {
    match RequireLogin(jwt, header, rows)
    case Some(halt) => halt
    case None => UserFromToken(CurrentUserRaw(jwt, header, rows).value, urlFor)
  }
}
