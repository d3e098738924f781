/**
 * The users table as the ORM keeps it: rows in primary-key order and the next
 * auto-increment id. `save` runs the model's validations first and writes only
 * when they pass; `destroy` deletes the row.
 */
module Persistence {
  import opened Wrappers
  import opened UserModel

  /** The row a successful first save stores: the next id, both timestamps set to `now`. */
  function Inserted(u: User, nextId: int, now: int): User {
    u.(id := nextId, createdAt := now, updatedAt := now)
  }

  /**
   * Whether a save changes a stored column or the avatar. The avatar is an attachment
   * rather than a column, but an attachment touches its record when it is attached or
   * purged, so changing it moves `updated_at` as well.
   */
  predicate Changed(before: User, after: User) {
    before.email != after.email || before.name != after.name
    || before.admin != after.admin || before.passwordDigest != after.passwordDigest
    || before.avatar != after.avatar
  }

  /** The row a successful save of a persisted record stores: `updated_at` moves only when something changed. */
  function Resaved(before: User, after: User, now: int): User {
    if Changed(before, after) then after.(updatedAt := now) else after
  }

  /** `rows` without the row at position `k`. */
  function RemoveAt(rows: seq<User>, k: nat): (r: seq<User>)
    requires k < |rows|
    ensures |r| == |rows| - 1
    ensures forall i :: 0 <= i < k ==> r[i] == rows[i]
    ensures forall i :: k <= i < |r| ==> r[i] == rows[i + 1]
  {
    rows[..k] + rows[k + 1..]
  }

  /** A record that passes validation as a new record keeps the table well-formed when appended. */
  lemma {:induction false} InsertKeepsTableOk(rows: seq<User>, nextId: int, u: User, now: int)
    requires TableOk(rows, nextId)
    requires IsValid(rows, u, None)
    ensures TableOk(rows + [Inserted(u, nextId, now)], nextId + 1)
  {
    var saved := Inserted(u, nextId, now);
    var r := rows + [saved];
    assert forall i :: 0 <= i < |rows| ==> !SameEmail(rows[i], saved) && !SameEmail(saved, rows[i]);
    forall i, j | 0 <= i < |r| && 0 <= j < |r| && i != j ensures !SameEmail(r[i], r[j]) {
      if i < |rows| && j < |rows| {
        assert r[i] == rows[i] && r[j] == rows[j];
      }
    }
  }

  /** A persisted record that passes validation keeps the table well-formed when written back in place. */
  lemma {:induction false} ReplaceKeepsTableOk(rows: seq<User>, nextId: int, k: nat, u: User)
    requires TableOk(rows, nextId)
    requires k < |rows| && u.id == rows[k].id
    requires IsValid(rows, u, Some(u.id))
    ensures TableOk(rows[k := u], nextId)
  {
    var r := rows[k := u];
    forall i | 0 <= i < |rows| && i != k ensures !SameEmail(rows[i], u) && !SameEmail(u, rows[i]) {
      assert rows[i].id != rows[k].id by {
        if i < k { assert rows[i].id < rows[k].id; } else { assert rows[k].id < rows[i].id; }
      }
    }
    forall i, j | 0 <= i < |r| && 0 <= j < |r| && i != j ensures !SameEmail(r[i], r[j]) {
      if i != k && j != k {
        assert r[i] == rows[i] && r[j] == rows[j];
      }
    }
  }

  /** Deleting a row keeps the table well-formed. */
  lemma {:induction false} RemoveKeepsTableOk(rows: seq<User>, nextId: int, k: nat)
    requires TableOk(rows, nextId)
    requires k < |rows|
    ensures TableOk(RemoveAt(rows, k), nextId)
  {
    var r := RemoveAt(rows, k);
    forall i, j | 0 <= i < |r| && 0 <= j < |r| && i != j ensures !SameEmail(r[i], r[j]) {
      var i' := if i < k then i else i + 1;
      var j' := if j < k then j else j + 1;
      assert r[i] == rows[i'] && r[j] == rows[j'];
    }
    forall i, j | 0 <= i < j < |r| ensures r[i].id < r[j].id {
      var i' := if i < k then i else i + 1;
      var j' := if j < k then j else j + 1;
      assert r[i] == rows[i'] && r[j] == rows[j'];
    }
  }

  class UserTable {
    var rows: seq<User>
    var nextId: int

    ghost predicate Valid()
      reads this
    {
      TableOk(rows, nextId)
    }

    constructor ()
      ensures Valid() && rows == [] && nextId == 1
    {
      rows := [];
      nextId := 1;
    }

    /** `save` of a new record: validate, then append with the next id and the current time. */
    method Insert(u: User, now: int) returns (errors: map<string, seq<string>>, saved: User)
      requires Valid()
      modifies this
      ensures Valid()
      ensures errors == Errors(old(rows), u, None)
      ensures errors == map[] ==> saved == Inserted(u, old(nextId), now)
                                  && rows == old(rows) + [saved] && nextId == old(nextId) + 1
      ensures errors != map[] ==> saved == u && rows == old(rows) && nextId == old(nextId)
    {
      errors := Errors(rows, u, None);
      saved := u;
      if errors == map[] {
        saved := Inserted(u, nextId, now);
        InsertKeepsTableOk(rows, nextId, u, now);
        rows := rows + [saved];
        nextId := nextId + 1;
      }
    }

    /** `save` of the persisted record at position `k`, whose attributes are now those of `u`. */
    method Update(k: nat, u: User, now: int) returns (errors: map<string, seq<string>>, saved: User)
      requires Valid()
      requires k < |rows| && u.id == rows[k].id
      modifies this
      ensures Valid() && nextId == old(nextId)
      ensures errors == Errors(old(rows), u, Some(u.id))
      ensures errors == map[] ==> saved == Resaved(old(rows)[k], u, now) && rows == old(rows)[k := saved]
      ensures errors != map[] ==> saved == u && rows == old(rows)
    {
      errors := Errors(rows, u, Some(u.id));
      saved := u;
      if errors == map[] {
        saved := Resaved(rows[k], u, now);
        ReplaceKeepsTableOk(rows, nextId, k, saved);
        rows := rows[k := saved];
      }
    }

    /** `destroy` of the row at position `k`. */
    method Delete(k: nat)
      requires Valid()
      requires k < |rows|
      modifies this
      ensures Valid() && nextId == old(nextId)
      ensures rows == RemoveAt(old(rows), k)
    {
      RemoveKeepsTableOk(rows, nextId, k);
      rows := RemoveAt(rows, k);
    }
  }
}
