# ruxtmin user management, modelled in Dafny

ruxtmin is a Rails API (`back/`) paired with a Nuxt front end (`front/`). This
project models the parts that decide who may do what with a user record:

- **The bearer-token gate** (`ApplicationController`). `decoded_token` splits the
  `Authorization` header the way Ruby's `split(' ')` does. It accepts only the exact
  first word `Bearer` and hands the second word to the JWT decoder. `current_user_raw`
  looks up the row named by the token's `user_id`. `require_login` answers 401 when
  there is no such row.
- **The projection `prep_raw_user`**, used by `/me`, `index`, `show` and a successful
  `create` or `update`. It sends
  id, email, name and the avatar URL, and admin only when the user is an admin. It
  never sends the password digest or the timestamps.
- **Login** (`AuthenticationsController#create`). It finds the user by exact email and
  checks the password. On success it issues a token carrying `{user_id, email}`. Every
  failure gets the same 401 response.
- **The users controller**. It covers the `before_action` chain (`require_login` for
  every action but `create`, then `set_user`), the `user_params` filter, the five
  actions over a users table, and `rescue_from Exception`.
- **The `User` model**. Its validations are the email format `/\A(.+)@(.+)\z/`,
  case-insensitive uniqueness, a length of 4 to 254, and the digest presence that
  `has_secure_password` adds. The table invariant `TableOk` is what these validations
  and the auto-increment key keep true. Every write of `Persistence.UserTable`
  preserves it.
- **The front end's store getters** (`isAuthenticated`, `isAdmin`, `loggedInUser`).
- **The route middleware `currentUserOrAdminOnly`**. Both of these are modelled with
  the JavaScript semantics they depend on: truthiness, string-to-number conversion
  (section 7.1.4.1.1 of ECMA-262) and loose equality (section 7.2.14 of ECMA-262).
- **The join of the two halves** (module `Session`). The auth module stores the `data`
  member of `/me` as `state.auth.user`. The `Session` lemmas follow a stored row
  through the projection into the store, and on to `isAdmin` and the guard.

The JWT codec, bcrypt, `url_for` and the clock are parameters:

- a `Jwt` record of an encode and a decode function;
- an `authenticate` function;
- the `hashed` digest;
- `urlFor`;
- `now`.

The end-to-end lemma `Authentications.LoginTokenResolves` requires the codec to be
`Sound`: a token it issues decodes back to its claims and uses only the characters of
a compact JWS serialization. The model takes no axiom.

When `set_user` finds no row, `User.find` raises `ActiveRecord::RecordNotFound`. Rails
would normally answer that with 404, but here the catch-all `rescue_from Exception`
(`back/app/controllers/application_controller.rb`, line 4) answers 500 first
(`UsersController.Controller.Process`).

The guard compares only the last path segment with the user's id. Three consequences
follow:

- Were `currentUserOrAdminOnly` attached to an edit route, it would send a non-admin to
  "/" even from "/users/<own id>/edit" (`RouteGuard.EditPathRedirectsNonAdmin`). The
  shipped edit page is evidently not behind it: the end-to-end test
  `front/cypress/e2e/non-admin.cy.js` (lines 85-103) has a non-admin edit their own
  record there.
- Numerals such as "02" or "2.0" match id 2 (`JsValues.NonCanonicalNumerals`).
- The backend checks only that the token is valid. Any logged-in user may show, update
  or destroy any record through the API. The guard is the only per-user restriction,
  and it lives in the front end.

## Model

| member | source | states |
|---|---|---|
| Http.Unauthorized | back/app/controllers/application_controller.rb:41-43 | status 401, with a body of exactly `status` (the same 401) and the message "Unauthorized" |
| Http.InternalServerError | back/app/controllers/application_controller.rb:45-47 | status 500, with a body of exactly `status` (the same 500) and the message "Internal Server Error" |
| RubySplit.Split | back/app/controllers/application_controller.rb:31-32 | every piece `split(' ')` yields is a word: non-empty and free of whitespace |
| RubySplit.SplitIgnoresLeadingSpace | back/app/controllers/application_controller.rb:31 | leading whitespace in the header does not change the words |
| RubySplit.SplitWordFirst | back/app/controllers/application_controller.rb:31 | a word followed by whitespace or the end is the first piece |
| RubySplit.SplitPaddedWord | back/app/controllers/application_controller.rb:31 | a word after any leading whitespace is the first piece |
| RubySplit.SplitTwoWords | back/app/controllers/application_controller.rb:31-32 | pieces 0 and 1 are the first two words, whatever whitespace surrounds them |
| RubySplit.SplitJoin | back/app/controllers/application_controller.rb:31-32 | splitting undoes joining words with single spaces |
| RubySplit.SplitKeepsAllNonSpace | back/app/controllers/application_controller.rb:31-32 | the pieces, concatenated, are exactly the non-whitespace characters of the input in order |
| UserModel.EmailFormatIsThePattern | back/app/models/user.rb:4 | the direct format test holds iff the email is `a@b` with non-empty, newline-free `a` and `b` |
| UserModel.EmailErrors | back/app/models/user.rb:4 | no email message iff format, case-insensitive uniqueness and length 4..254 all hold |
| UserModel.EmailRulesIgnoreCase | back/app/models/user.rb:4 | two emails equal up to case get the same verdict from the format, length and uniqueness rules |
| UserModel.Errors | back/app/models/user.rb:3-4 | no errors iff the record is valid; only email and password can fail; a password error iff there is no digest; the email entry is present iff there are email messages, and holds exactly those messages |
| UserModel.OnlyEmailAndPasswordAreValidated | back/app/models/user.rb:2-4 | name, admin flag and avatar never affect validation |
| UserModel.TestEmailsAreInvalid | back/app/models/user.rb:4 | the emails "test" and "test2" fail with "Email invalid" whatever the table holds |
| UserModel.ShortEmailHasFormatButFailsLength | back/app/models/user.rb:4 | the format and length rules are independent: "a@b" matches the pattern but is too short |
| UserModel.StoredRowRevalidates | back/app/models/user.rb:4 | in a well-formed table, a stored row re-saved unchanged is valid, so its own email is not taken |
| UserModel.IndexOfId | back/app/controllers/users_controller.rb:43 | the first row with the id, or none when no row has it |
| UserModel.FindById | back/app/controllers/application_controller.rb:20 | the user found is a stored row with that id; none iff no row has it |
| UserModel.IndexOfEmail | back/app/controllers/authentications_controller.rb:5 | the first row whose email is exactly the one given, or none |
| UserModel.FindByIdUnique | back/app/controllers/application_controller.rb:20 | in a well-formed table, finding by a stored id returns that very row |
| Persistence.RemoveAt | back/app/controllers/users_controller.rb:37 | the table without the destroyed row, every other row kept in order |
| Persistence.InsertKeepsTableOk | back/app/models/user.rb:4 | appending a record that passes validation keeps the table invariant |
| Persistence.ReplaceKeepsTableOk | back/app/models/user.rb:4 | writing back a persisted record that passes validation keeps the table invariant |
| Persistence.RemoveKeepsTableOk | back/app/controllers/users_controller.rb:37 | deleting a row keeps the table invariant |
| Persistence.UserTable.constructor | back/app/models/user.rb:1 | an empty table is well-formed, with next id 1 |
| Persistence.UserTable.Insert | back/app/controllers/users_controller.rb:19 | save of a new record: the errors are the validation errors; on success the row is appended with the next id and the current time, otherwise nothing changes |
| Persistence.UserTable.Update | back/app/controllers/users_controller.rb:28 | save of a persisted record: on success it is written back in place, otherwise nothing changes; the invariant holds |
| Persistence.UserTable.Delete | back/app/controllers/users_controller.rb:37 | destroy removes exactly that row and keeps the invariant |
| Application.EncodeToken | back/app/controllers/application_controller.rb:26-28 | under a sound codec the token is compact and decodes back to the payload |
| Application.DecodedToken | back/app/controllers/application_controller.rb:30-39 | no token iff there is no header or its first word is not exactly "Bearer"; verified iff the second word exists and decodes, with its claims; a failure otherwise |
| Application.CurrentUserRaw | back/app/controllers/application_controller.rb:17-24 | a user is found only for a verified token whose `user_id` is that stored user's id |
| Application.VerifiedClaimFindsRow | back/app/controllers/application_controller.rb:17-24 | conversely, in a well-formed table a verified token whose `user_id` is a stored row's id yields that row |
| Application.RequireLogin | back/app/controllers/application_controller.rb:6-8 | halts with the 401 response iff no current user is found |
| Application.NoHeaderIsUnauthorized | back/app/controllers/application_controller.rb:30-31 | no Authorization header gives no token and a 401 |
| Application.WrongSchemeIsUnauthorized | back/app/controllers/application_controller.rb:31 | a first word other than the exact "Bearer" gives no token and a 401 |
| Application.BlankHeaderIsUnauthorized | back/app/controllers/application_controller.rb:30-31 | a header of nothing but whitespace gives no token and a 401 |
| Application.LoneBearerIsUnauthorized | back/app/controllers/application_controller.rb:31-37 | "Bearer" with no second word hands nil to the decoder, which fails, and the request gets 401 |
| Application.BearerTokenIsSecondWord | back/app/controllers/application_controller.rb:31-36 | the decoder gets the second word, whatever whitespace surrounds it and whatever follows |
| Application.DecodeFailureIsUnauthorized | back/app/controllers/application_controller.rb:33-37 | a token the decoder refuses is caught as `[]` and the request gets 401 |
| Application.PrepRawUser | back/app/controllers/application_controller.rb:52-57 | keys are id, email, name and avatar, plus admin exactly for admins; no digest or timestamps; the values are the stored ones and the avatar is its URL or null |
| Application.AdminFalseAndNilLookAlike | back/app/controllers/application_controller.rb:54 | a user whose admin flag is nil and one whose flag is false get the same projection |
| Application.UserFromToken | back/app/controllers/application_controller.rb:11-14 | 200 with exactly `data` (the projection) and `status` (200) |
| Application.Me | back/app/controllers/application_controller.rb:11-14 | GET /me answers 200 iff the token names a stored user, and then with that user's projection; the 401 response otherwise |
| Authentications.LoginUser | back/app/controllers/authentications_controller.rb:5 | the user found is a stored row with exactly the given email; none means no row has it |
| Authentications.TokenPayload | back/app/controllers/authentications_controller.rb:7 | the claims are exactly `user_id` (the user's id) and `email` |
| Authentications.Login | back/app/controllers/authentications_controller.rb:4-13 | 200 iff the email is found and the password authenticates, and then the body carries the token for that user's claims; otherwise the 401 response |
| Authentications.LoginUserIsTheRow | back/app/controllers/authentications_controller.rb:5 | in a well-formed table login finds the one row with that email |
| Authentications.LoginSucceedsIff | back/app/controllers/authentications_controller.rb:5-6 | login succeeds iff some stored user has exactly that email and the password authenticates for them |
| Authentications.LoginFailuresLookAlike | back/app/controllers/authentications_controller.rb:10-11 | missing email, unknown email, and a found user who rejects the password all get the same 401 response |
| Authentications.IssuedTokenPassesGate | back/app/controllers/application_controller.rb:17-39 | a token issued for a stored row, sent as "Bearer <token>", resolves to that row |
| Authentications.LoginTokenResolves | back/app/controllers/authentications_controller.rb:4-9 | after a successful login the issued token passes `require_login`, resolves to the same user, and `/me` answers with that user's projection |
| UsersController.NormaliseAvatar | back/app/controllers/users_controller.rb:48 | a missing or blank avatar becomes nil, a present one is kept, and no other parameter changes |
| UsersController.Permit | back/app/controllers/users_controller.rb:49 | exactly the submitted keys among name, email, avatar, admin and password pass, with their values |
| UsersController.CastBoolean | back/app/controllers/users_controller.rb:49 | a submitted admin string is nil iff empty and false iff it is one of the false spellings |
| UsersController.NewDigest | back/app/models/user.rb:3 | `password=`: nil clears the digest, "" keeps it, anything else stores the new digest |
| UsersController.Assign | back/app/controllers/users_controller.rb:18 | id and timestamps never change; an attribute not submitted keeps its value; a submitted name, email, admin or avatar becomes its cast value; a submitted password sets the digest by the `password=` rule |
| UsersController.ErrorsJson | back/app/controllers/users_controller.rb:22 | one array per failing attribute, holding exactly its messages in order |
| UsersController.IndexBody | back/app/controllers/users_controller.rb:6-9 | one projection per stored row, in order |
| UsersController.Controller.constructor | back/app/controllers/users_controller.rb:1 | a request starts with its params and no `@user` |
| UsersController.Controller.RequireLogin | back/app/controllers/application_controller.rb:6-8 | halts as `require_login` does, and sets `@user` when the token is verified |
| UsersController.Controller.SetUser | back/app/controllers/users_controller.rb:42-44 | `@user` becomes the row with the route id when there is one; none is reported otherwise |
| UsersController.Controller.UserParams | back/app/controllers/users_controller.rb:47-50 | `params` gets its avatar normalised in place and the permitted attributes are returned |
| UsersController.Controller.Index | back/app/controllers/users_controller.rb:6-9 | 200 with every user's projection |
| UsersController.Controller.Show | back/app/controllers/users_controller.rb:12-14 | 200 with the found user's projection |
| UsersController.Controller.Create | back/app/controllers/users_controller.rb:17-24 | a valid new user is appended and answered 201 with its projection; otherwise 422 with its errors and the table unchanged |
| UsersController.Controller.Update | back/app/controllers/users_controller.rb:27-33 | a valid update is written in place and answered 200; otherwise 422 with its errors and the table unchanged |
| UsersController.Controller.Destroy | back/app/controllers/users_controller.rb:36-38 | the row is removed and the answer is 204 with no content |
| UsersController.Controller.Process | back/app/controllers/users_controller.rb:1-44 | every action but create answers 401 without a user; a missing record answers 500; otherwise each action's new table and response: index and show leave the table alone; create appends the new row, takes the next id and answers 201 with its projection; update writes the row in place and answers 200 with its projection; invalid input answers 422 with the errors and leaves the table alone; destroy removes the row; only a successful create advances the id counter; the invariant is kept |
| UsersController.UserParamsArePermitted | back/app/controllers/users_controller.rb:47-50 | nothing outside the five attributes passes, an avatar entry is always present, and the others pass unchanged |
| UsersController.MissingAvatarDetaches | back/app/controllers/users_controller.rb:48 | a missing or blank avatar leaves the record with no avatar, on create and on update |
| UsersController.UpdateKeepsIdentity | back/app/controllers/users_controller.rb:28 | no parameter changes the id or the creation time; an update that changes nothing stores the record as assigned; an update that attaches or removes an avatar moves `updated_at` to now |
| UsersController.ResubmittingOwnEmailIsNotTaken | back/app/models/user.rb:4 | resubmitting a user's own email in any case on update, with or without a new password, passes validation |
| UsersController.TestEmailCreateIsRefused | back/app/controllers/users_controller.rb:17-24 | a create with email "test" or "test2" is refused |
| UsersController.IndexHidesSecrets | back/app/controllers/users_controller.rb:6-9 | no index entry carries a digest or a timestamp |
| JsValues.Trim | front/middleware/currentUserOrAdminOnly.js:6 | the result has no whitespace at either end, and a trimmed string is kept as it is |
| JsValues.TrimRemovesPadding | front/middleware/currentUserOrAdminOnly.js:6 | trimming removes exactly the surrounding whitespace |
| JsValues.StringToNumber | front/middleware/currentUserOrAdminOnly.js:6 | a whitespace-only string is 0, and a string of decimal digits is its value |
| JsValues.LooselyEqual | front/middleware/currentUserOrAdminOnly.js:6 | equal values are loosely equal; undefined and null equal exactly each other; two strings or two numbers are loosely equal iff identical |
| JsValues.StringToNumberOfDecimal | front/middleware/currentUserOrAdminOnly.js:6 | the numeral of an integer converts back to that integer |
| JsValues.DecimalLooselyEquals | front/middleware/currentUserOrAdminOnly.js:6 | a numeral loosely equals a number iff it is that number's numeral |
| JsValues.PaddedNumeralEquals | front/middleware/currentUserOrAdminOnly.js:6 | whitespace around the numeral of an integer does not matter: " 2 " == 2 |
| JsValues.LowercaseWordIsNaN | front/middleware/currentUserOrAdminOnly.js:3-6 | a segment starting with a lower-case letter, such as "users" or "edit", converts to NaN and loosely equals no number |
| JsValues.LooselyEqualSymmetric | front/middleware/currentUserOrAdminOnly.js:6 | loose equality is symmetric |
| JsValues.NonCanonicalNumerals | front/middleware/currentUserOrAdminOnly.js:6 | "02" and "2.0" both loosely equal 2 |
| StoreGetters.IsAuthenticated | front/store/index.js:2-4 | true iff the auth module's `loggedIn` is |
| StoreGetters.LoggedInUser | front/store/index.js:14-16 | the stored user itself |
| StoreGetters.IsAdmin | front/store/index.js:6-12 | true only when a user is present |
| StoreGetters.IsAdminIff | front/store/index.js:6-12 | true iff the user is an object whose admin loosely equals true; the null test never decides |
| StoreGetters.IsAdminFalseCases | front/store/index.js:6-12 | no user, or an admin that is false, null or missing, gives false |
| StoreGetters.IsAdminIsLoose | front/store/index.js:7 | an admin of 1 or "1" also gives true |
| RouteGuard.SplitOn | front/middleware/currentUserOrAdminOnly.js:2 | at least one piece; a string without the separator is one piece, and one with it gives at least two |
| RouteGuard.PiecesHaveNoSeparator | front/middleware/currentUserOrAdminOnly.js:2 | no piece of the split contains '/' |
| RouteGuard.LastSegment | front/middleware/currentUserOrAdminOnly.js:3 | the segment has no '/'; a path without '/' is its own segment |
| RouteGuard.JoinSplit | front/middleware/currentUserOrAdminOnly.js:2 | joining the pieces with '/' gives the path back |
| RouteGuard.LastSegmentAfterLastSlash | front/middleware/currentUserOrAdminOnly.js:2-3 | the last piece is whatever follows the last '/' |
| RouteGuard.Guard | front/middleware/currentUserOrAdminOnly.js:1-9 | throws iff the user is null or undefined; redirects only to "/", and exactly when the user is not an admin and the last segment is not loosely equal to the id |
| RouteGuard.AdminNeverRedirected | front/middleware/currentUserOrAdminOnly.js:5-6 | a user whose admin is truthy is never redirected |
| RouteGuard.SelfNotRedirected | front/middleware/currentUserOrAdminOnly.js:2-8 | a path ending in the user's own id lets them through |
| RouteGuard.OtherIdRedirected | front/middleware/currentUserOrAdminOnly.js:2-8 | a non-admin on a path ending in another id is sent to "/" |
| RouteGuard.EditPathRedirectsNonAdmin | front/middleware/currentUserOrAdminOnly.js:2-8 | the middleware alone, applied to "/users/<own id>/edit", sends a non-admin to "/" |
| RouteGuard.NoUserThrows | front/middleware/currentUserOrAdminOnly.js:4 | with a null user in the store, the guard throws |
| Session.FetchedState | front/nuxt.config.js:26 | after /me the store is logged in and holds an object with exactly the projection's keys, each holding the parsed projection value |
| Session.FrontAdminMatchesBack | front/store/index.js:6-12 | the front end's `isAdmin` holds iff the stored row's admin flag is true |
| Session.FrontGuardLetsSelfThrough | front/middleware/currentUserOrAdminOnly.js:1-9 | a logged-in user is let through to their own page |
| Session.FrontGuardRedirectsOthers | front/middleware/currentUserOrAdminOnly.js:1-9 | a logged-in non-admin is sent to "/" from another user's page |
| Session.FrontGuardLetsAdminThrough | front/middleware/currentUserOrAdminOnly.js:1-9 | a logged-in admin is never redirected |

## Left out

- JWT signing and verification (HS256), bcrypt, ActiveStorage and `url_for` are parameters. Their cryptography and storage are not modelled.
- The database, SQL and transactions: the table is an in-memory sequence of rows in primary-key order.
- Application.ClaimedUserId: a `user_id` claim that is a string is not cast to an integer, so such a token finds no user. Tokens this application issues carry an integer.
- UsersController.Controller.Process: the route id is an integer. Rails' casting of a non-numeric `:id` string is not modelled.
- UserModel.Lower: case-insensitive uniqueness folds ASCII letters only. The database's handling of other scripts is not modelled.
- UserModel.Errors: the 72-byte maximum password length that `has_secure_password` also enforces is not modelled.
- UsersController.Permit: parameters are strings or null, as form posts deliver them. JSON booleans, numbers, arrays and nested objects are not modelled.
- UsersController.Controller.Create: the `Location` header of the 201 response is not modelled.
- UsersController.Controller.Process: the only exception modelled is `set_user` failing to find the record. Other exceptions that `rescue_from Exception` would turn into a 500 are not modelled. These include storage failures and unexpected parameter types.
- JsValues.StringToNumber: Numbers are unbounded exact integers. Rounding to a double above 2^53 and overflow to Infinity are not modelled. A non-integral result is treated like NaN, because it can never equal an integer id.
- StoreGetters.Member: only the `id` and `admin` properties the front end reads are modelled. Property lookup on primitives answers undefined.
- The front end's pages and components, the Nuxt auth module's internals, the Cypress tests, the `backend/` and `frontend/` variants, the health controller, seeds and configuration are not part of this model.
- UsersController.Blank: a new record's `admin` is false. This is an assumption of the model, since the schema is not part of it. Nothing observable depends on it: the projection treats nil and false alike (`Application.AdminFalseAndNilLookAlike`), and so does the front end's `isAdmin`.
- Persistence.Changed: an avatar is modelled by the name of its blob, so re-uploading a file under the same name counts as no change and leaves `updated_at` alone. Rails would create a new attachment and touch the record.
- The store getters are pure reads of the state, by construction of the model. No mutation of the store is modelled.
- The password given to login is compared only through `authenticate`. Timing behaviour is not modelled.
