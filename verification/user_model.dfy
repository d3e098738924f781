/**
 * The `User` model: the stored record, the email validations declared on it
 * (format, case-insensitive uniqueness, length), the password-digest presence rule
 * that `has_secure_password` adds, and the finders the controllers use.
 */
module UserModel {
  import opened Wrappers

  /** A row of the users table. A nil email is held as "" (see `Errors`). */
  datatype User = User(
    id: int,
    email: string,
    name: Option<string>,
    admin: Option<bool>,
    passwordDigest: Option<string>,
    avatar: Option<string>,   // the attached avatar blob, if any
    createdAt: int,
    updatedAt: int)

  // ---------------------------------------------------------------------------
  // format: /\A(.+)@(.+)\z/

  predicate NoNewline(s: string) {
    forall i :: 0 <= i < |s| ==> s[i] != '\n'
  }

  /**
   * What the pattern accepts: the string is `a + "@" + b` with `a` and `b` non-empty
   * and made of characters `.` matches (anything but a newline).
   */
  ghost predicate MatchesEmailPattern(s: string) {
    exists i :: 0 < i < |s| - 1 && s[i] == '@' && NoNewline(s[..i]) && NoNewline(s[i + 1..])
  }

  /** The format check as a direct test: no newline, and an '@' strictly inside. */
  predicate EmailFormatOk(s: string) {
    |s| >= 3 && '@' in s[1..|s| - 1] && '\n' !in s
  }

  lemma {:induction false} EmailFormatIsThePattern(s: string)
    ensures EmailFormatOk(s) <==> MatchesEmailPattern(s)
  {
    if EmailFormatOk(s) {
      var j :| 0 <= j < |s| - 2 && s[1..|s| - 1][j] == '@';
      var i := j + 1;
      assert s[i] == '@';
      assert NoNewline(s[..i]) && NoNewline(s[i + 1..]) by {
        forall k | 0 <= k < |s| ensures s[k] != '\n' {
          assert s[k] in s;
        }
      }
    }
    if MatchesEmailPattern(s) {
      var i :| 0 < i < |s| - 1 && s[i] == '@' && NoNewline(s[..i]) && NoNewline(s[i + 1..]);
      assert s[1..|s| - 1][i - 1] == '@';
      forall k | 0 <= k < |s| ensures s[k] != '\n' {
        if k < i { assert s[..i][k] == s[k]; }
        else if k > i { assert s[i + 1..][k - i - 1] == s[k]; }
      }
    }
  }

  // ---------------------------------------------------------------------------
  // length: { minimum: 4, maximum: 254 }

  const MinEmailLength := 4
  const MaxEmailLength := 254

  predicate EmailLengthOk(s: string) {
    MinEmailLength <= |s| <= MaxEmailLength
  }

  // ---------------------------------------------------------------------------
  // uniqueness: { case_sensitive: false }

  /** SQL `LOWER` on one character (ASCII letters only). */
  function LowerChar(c: char): char {
    if 'A' <= c <= 'Z' then (c as int - 'A' as int + 'a' as int) as char else c
  }

  function Lower(s: string): (r: string)
    ensures |r| == |s| && forall i :: 0 <= i < |s| ==> r[i] == LowerChar(s[i])
  {
    seq(|s|, i requires 0 <= i < |s| => LowerChar(s[i]))
  }

  /**
   * Whether another stored row already has `email`, ignoring case. `self` is the id of
   * the record being saved when it is already persisted; that row is not "another".
   */
  predicate Taken(rows: seq<User>, email: string, self: Option<int>) {
    exists i :: 0 <= i < |rows| && (self.None? || rows[i].id != self.value)
                && Lower(rows[i].email) == Lower(email)
  }

  // ---------------------------------------------------------------------------
  // All the rules together

  /** The record passes every validation when saved against `rows`. */
  predicate IsValid(rows: seq<User>, u: User, self: Option<int>) {
    && u.passwordDigest.Some?
    && EmailFormatOk(u.email)
    && !Taken(rows, u.email, self)
    && EmailLengthOk(u.email)
  }

  /** The `email` messages, in the order the validators are declared. */
  function EmailErrors(rows: seq<User>, u: User, self: Option<int>): (m: seq<string>)
    ensures m == [] <==> EmailFormatOk(u.email) && !Taken(rows, u.email, self) && EmailLengthOk(u.email)
  {
    (if EmailFormatOk(u.email) then [] else ["Email invalid"])
    + (if Taken(rows, u.email, self) then ["has already been taken"] else [])
    + (if |u.email| < MinEmailLength then ["is too short (minimum is 4 characters)"]
       else if |u.email| > MaxEmailLength then ["is too long (maximum is 254 characters)"]
       else [])
  }

  /**
   * `user.errors` after validation: a message list per failing attribute. Only
   * `email` and `password` (the digest presence rule) can fail; `name`, `admin`
   * and `avatar` carry no validation.
   */
  function Errors(rows: seq<User>, u: User, self: Option<int>): (e: map<string, seq<string>>)
    ensures e == map[] <==> IsValid(rows, u, self)
    ensures e.Keys <= {"email", "password"}
    ensures "password" in e <==> u.passwordDigest.None?
    ensures "email" in e <==> EmailErrors(rows, u, self) != []
    ensures "email" in e ==> e["email"] == EmailErrors(rows, u, self)
  {
    var password: map<string, seq<string>> :=
      if u.passwordDigest.None? then map["password" := ["can't be blank"]] else map[];
    var email := EmailErrors(rows, u, self);
    assert password == map[] <==> u.passwordDigest.Some? by {
      if u.passwordDigest.None? { assert "password" in password; }
    }
    if email == [] then password else password["email" := email]
  }

  /** Name, admin flag and avatar do not take part in validation. */
  lemma {:induction false} OnlyEmailAndPasswordAreValidated(rows: seq<User>, u: User, self: Option<int>,
                                                            name: Option<string>, admin: Option<bool>, avatar: Option<string>)
    ensures Errors(rows, u.(name := name, admin := admin, avatar := avatar), self) == Errors(rows, u, self)
  {
  }

  /** The emails "test" and "test2" fail the format check, whatever the table holds. */
  lemma {:induction false} TestEmailsAreInvalid(rows: seq<User>, u: User, self: Option<int>)
    requires u.email == "test" || u.email == "test2"
    ensures !IsValid(rows, u, self)
    ensures "email" in Errors(rows, u, self) && "Email invalid" in Errors(rows, u, self)["email"]
  {
    assert '@' !in u.email[1..|u.email| - 1];
  }

  /** Format and length are independent: "a@b" has the form but is too short. */
  lemma {:induction false} ShortEmailHasFormatButFailsLength()
    ensures EmailFormatOk("a@b") && !EmailLengthOk("a@b")
  {
    assert "a@b"[1..2] == "@";
  }

  /** Lowering keeps '@' and newlines where they are, and changes nothing else into them. */
  lemma {:induction false} SameLowerSameMarks(a: string, b: string)
    requires Lower(a) == Lower(b)
    ensures |a| == |b|
    ensures forall i :: 0 <= i < |a| ==> (a[i] == '@' <==> b[i] == '@') && (a[i] == '\n' <==> b[i] == '\n')
  {
    forall i | 0 <= i < |a| ensures (a[i] == '@' <==> b[i] == '@') && (a[i] == '\n' <==> b[i] == '\n') {
      assert Lower(a)[i] == Lower(b)[i];
    }
  }

  /** Two emails equal up to case get the same verdict from every email rule. */
  lemma {:induction false} EmailRulesIgnoreCase(rows: seq<User>, a: string, b: string, self: Option<int>)
    requires Lower(a) == Lower(b)
    ensures EmailFormatOk(a) <==> EmailFormatOk(b)
    ensures EmailLengthOk(a) <==> EmailLengthOk(b)
    ensures Taken(rows, a, self) <==> Taken(rows, b, self)
  {
    SameLowerSameMarks(a, b);
    if EmailFormatOk(a) {
      var j :| 0 <= j < |a| - 2 && a[1..|a| - 1][j] == '@';
      assert b[1..|b| - 1][j] == b[j + 1] == '@';
      forall i | 0 <= i < |b| ensures b[i] != '\n' { assert a[i] in a; }
    }
    if EmailFormatOk(b) {
      var j :| 0 <= j < |b| - 2 && b[1..|b| - 1][j] == '@';
      assert a[1..|a| - 1][j] == a[j + 1] == '@';
      forall i | 0 <= i < |a| ensures a[i] != '\n' { assert b[i] in b; }
    }
  }

  // ---------------------------------------------------------------------------
  // The table and its invariant

  /** Two rows hold the same email up to case. */
  predicate SameEmail(a: User, b: User) {
    Lower(a.email) == Lower(b.email)
  }

  /**
   * What the validations and the auto-increment key keep true of the table: ids are
   * positive, below the next id and increasing in store order, every row's email is
   * well-formed, no two rows share an email up to case, and every row has a digest.
   */
  ghost predicate TableOk(rows: seq<User>, nextId: int) {
    && 1 <= nextId
    && (forall i :: 0 <= i < |rows| ==> 1 <= rows[i].id < nextId)
    && (forall i, j :: 0 <= i < j < |rows| ==> rows[i].id < rows[j].id)
    && (forall i :: 0 <= i < |rows| ==> RowOk(rows[i]))
    && (forall i, j :: 0 <= i < |rows| && 0 <= j < |rows| && i != j ==> !SameEmail(rows[i], rows[j]))
  }

  /** The per-row rules: digest present, email of the right form and length. */
  predicate RowOk(u: User) {
    u.passwordDigest.Some? && EmailFormatOk(u.email) && EmailLengthOk(u.email)
  }

  /** Re-saving a stored row unchanged passes validation; in particular its own email does not count as taken. */
  lemma {:induction false} StoredRowRevalidates(rows: seq<User>, nextId: int, k: nat)
    requires TableOk(rows, nextId)
    requires k < |rows|
    ensures IsValid(rows, rows[k], Some(rows[k].id))
  {
    if Taken(rows, rows[k].email, Some(rows[k].id)) {
      var i :| 0 <= i < |rows| && rows[i].id != rows[k].id && Lower(rows[i].email) == Lower(rows[k].email);
      assert i != k;
      assert SameEmail(rows[i], rows[k]);
      assert false;
    }
  }

  // ---------------------------------------------------------------------------
  // Finders

  /** The position of the first row with this id (`find_by(id:)`, `find`). */
  function IndexOfId(rows: seq<User>, id: int): (k: Option<nat>)
    ensures k.Some? ==> k.value < |rows| && rows[k.value].id == id
    ensures k.Some? ==> forall j :: 0 <= j < k.value ==> rows[j].id != id
    ensures k.None? ==> forall j :: 0 <= j < |rows| ==> rows[j].id != id
  {
    if rows == [] then None
    else if rows[0].id == id then Some(0)
    else match IndexOfId(rows[1..], id)
      case None => None
      case Some(k) => Some(k + 1)
  }

  /** `User.find_by(id: id)`. */
  function FindById(rows: seq<User>, id: int): (u: Option<User>)
    ensures u.Some? ==> u.value in rows && u.value.id == id
    ensures u.None? <==> forall j :: 0 <= j < |rows| ==> rows[j].id != id
  {
    match IndexOfId(rows, id)
    case None => None
    case Some(k) => Some(rows[k])
  }

  /** The position of the first row whose email is exactly `email` (`find_by(email:)`). */
  function IndexOfEmail(rows: seq<User>, email: string): (k: Option<nat>)
    ensures k.Some? ==> k.value < |rows| && rows[k.value].email == email
    ensures k.Some? ==> forall j :: 0 <= j < k.value ==> rows[j].email != email
    ensures k.None? ==> forall j :: 0 <= j < |rows| ==> rows[j].email != email
  {
    if rows == [] then None
    else if rows[0].email == email then Some(0)
    else match IndexOfEmail(rows[1..], email)
      case None => None
      case Some(k) => Some(k + 1)
  }

  /** In a well-formed table ids are unique, so `find_by(id:)` returns the one row with that id. */
  lemma {:induction false} FindByIdUnique(rows: seq<User>, nextId: int, k: nat)
    requires TableOk(rows, nextId)
    requires k < |rows|
    ensures FindById(rows, rows[k].id) == Some(rows[k])
  {
    assert forall j :: 0 <= j < k ==> rows[j].id != rows[k].id;
  }
}
