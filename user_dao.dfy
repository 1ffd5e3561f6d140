/**
 * The `users` table and its DAO. The User entity is inferred from its uses: an auto-generated
 * id (0 means "assign one"), a name, an email and a plaintext password. Whether email carries a
 * unique index cannot be seen, so the table takes it as the parameter `emailUnique`.
 */
module UserStore {
  import opened Wrappers

  datatype User = User(id: int, name: string, email: string, password: string)

  predicate UniqueIds(rows: seq<User>) {
    forall i, j :: 0 <= i < j < |rows| ==> rows[i].id != rows[j].id
  }

  /** `SELECT * FROM users WHERE email = :email LIMIT 1`. */
  function ByEmail(rows: seq<User>, email: string): (r: Option<User>)
    ensures r.Some? ==> r.value in rows && r.value.email == email
    ensures r.None? <==> forall i :: 0 <= i < |rows| ==> rows[i].email != email
  {
    if rows == [] then None
    else if rows[0].email == email then Some(rows[0])
    else
      assert forall i :: 1 <= i < |rows| ==> rows[i] == rows[1..][i - 1];
      ByEmail(rows[1..], email)
  }

  /** `SELECT * FROM users WHERE email = :email AND password = :password LIMIT 1`: exact comparison. */
  function Login(rows: seq<User>, email: string, password: string): (r: Option<User>)
    ensures r.Some? ==> r.value in rows && r.value.email == email && r.value.password == password
    ensures r.None? <==>
      forall i :: 0 <= i < |rows| ==> !(rows[i].email == email && rows[i].password == password)
  {
    if rows == [] then None
    else if rows[0].email == email && rows[0].password == password then Some(rows[0])
    else
      assert forall i :: 1 <= i < |rows| ==> rows[i] == rows[1..][i - 1];
      Login(rows[1..], email, password)
  }

  /** `SELECT * FROM users WHERE id = :id LIMIT 1`. */
  function ById(rows: seq<User>, id: int): (r: Option<User>)
    ensures r.Some? ==> r.value in rows && r.value.id == id
    ensures r.None? <==> forall i :: 0 <= i < |rows| ==> rows[i].id != id
  {
    if rows == [] then None
    else if rows[0].id == id then Some(rows[0])
    else
      assert forall i :: 1 <= i < |rows| ==> rows[i] == rows[1..][i - 1];
      ById(rows[1..], id)
  }

  /** A successful login implies the email lookup finds a user too. */
  lemma LoginFindsEmail(rows: seq<User>, email: string, password: string)
    ensures Login(rows, email, password).Some? ==> ByEmail(rows, email).Some?
  {
  }

  /** The id an insert of `u` stores it under: the next AUTOINCREMENT value when `u.id` is 0. */
  function InsertId(u: User, lastId: int): int {
    if u.id == 0 then lastId + 1 else u.id
  }

  /** `@Insert(onConflict = ABORT)` fails when the id is taken, or the email under a unique index. */
  predicate InsertConflicts(rows: seq<User>, lastId: int, emailUnique: bool, u: User) {
    ById(rows, InsertId(u, lastId)).Some? || (emailUnique && ByEmail(rows, u.email).Some?)
  }

  /** The table as it is kept: unique nonzero ids, none above the AUTOINCREMENT counter. */
  predicate WellFormed(rows: seq<User>, lastId: int) {
    && UniqueIds(rows)
    && 0 <= lastId
    && forall i :: 0 <= i < |rows| ==> rows[i].id != 0 && rows[i].id <= lastId
  }

  /** Inserting a user under id 0 conflicts only on the email, and only under a unique index. */
  lemma FreshIdNeverConflicts(rows: seq<User>, lastId: int, emailUnique: bool, u: User)
    requires WellFormed(rows, lastId) && u.id == 0
    ensures InsertConflicts(rows, lastId, emailUnique, u) <==> emailUnique && ByEmail(rows, u.email).Some?
  {
    assert forall i :: 0 <= i < |rows| ==> rows[i].id != lastId + 1;
  }

  /** Re-inserting any stored user, changed or not, always conflicts on its id. */
  lemma {:induction false} StoredUserConflicts(rows: seq<User>, lastId: int, emailUnique: bool, id: int, u': User)
    requires WellFormed(rows, lastId)
    requires ById(rows, id).Some? && u'.id == ById(rows, id).value.id
    ensures InsertConflicts(rows, lastId, emailUnique, u')
  {
    var u := ById(rows, id).value;
    var i :| 0 <= i < |rows| && rows[i] == u;
    assert u'.id != 0;
    assert ById(rows, InsertId(u', lastId)).Some?;
  }

  /** With unique ids, a row is what its own id looks up. */
  lemma ByIdRow(rows: seq<User>, i: int)
    requires UniqueIds(rows) && 0 <= i < |rows|
    ensures ById(rows, rows[i].id) == Some(rows[i])
  {
    var v := ById(rows, rows[i].id).value;
    var j :| 0 <= j < |rows| && rows[j] == v;
  }

  /** Appending a user under a new id makes that id look it up and changes nothing else. */
  lemma {:induction false} AppendUser(rows: seq<User>, row: User)
    requires UniqueIds(rows) && ById(rows, row.id).None?
    ensures UniqueIds(rows + [row])
    ensures ById(rows + [row], row.id) == Some(row)
    ensures forall j :: j != row.id ==> ById(rows + [row], j) == ById(rows, j)
  {
    var after := rows + [row];
    assert forall a :: 0 <= a < |rows| ==> after[a] == rows[a];
    ByIdRow(after, |rows|);
    forall j | j != row.id ensures ById(after, j) == ById(rows, j) {
      if ById(rows, j).Some? {
        var v := ById(rows, j).value;
        var a :| 0 <= a < |rows| && rows[a] == v;
        ByIdRow(after, a);
      } else {
        assert forall a :: 0 <= a < |after| ==> after[a].id != j;
      }
    }
  }

  /** Replacing the row that holds an id changes what that id looks up and nothing else. */
  lemma {:induction false} ReplaceUser(rows: seq<User>, i: int, row: User)
    requires UniqueIds(rows) && 0 <= i < |rows| && row.id == rows[i].id
    ensures UniqueIds(rows[i := row])
    ensures ById(rows[i := row], row.id) == Some(row)
    ensures forall j :: j != row.id ==> ById(rows[i := row], j) == ById(rows, j)
  {
    var after := rows[i := row];
    assert forall a :: 0 <= a < |rows| ==> after[a].id == rows[a].id;
    ByIdRow(after, i);
    forall j | j != row.id ensures ById(after, j) == ById(rows, j) {
      if ById(rows, j).Some? {
        var v := ById(rows, j).value;
        var a :| 0 <= a < |rows| && rows[a] == v;
        assert after[a] == v;
        ByIdRow(after, a);
      } else {
        assert forall a :: 0 <= a < |after| ==> after[a].id != j;
      }
    }
  }

  /** Some user other than the one with id `id` holds `email`. */
  predicate EmailHeldByOther(rows: seq<User>, email: string, id: int) {
    exists i :: 0 <= i < |rows| && rows[i].email == email && rows[i].id != id
  }

  /** No two stored users share an email (what a unique index on `email` keeps). */
  predicate EmailsUnique(rows: seq<User>) {
    forall i, j :: 0 <= i < j < |rows| ==> rows[i].email != rows[j].email
  }

  lemma EmailsUniqueAppend(rows: seq<User>, row: User)
    requires EmailsUnique(rows) && ByEmail(rows, row.email).None?
    ensures EmailsUnique(rows + [row])
  {
  }

  lemma EmailsUniqueReplace(rows: seq<User>, i: int, row: User)
    requires UniqueIds(rows) && EmailsUnique(rows) && 0 <= i < |rows| && row.id == rows[i].id
    requires !EmailHeldByOther(rows, row.email, row.id)
    ensures EmailsUnique(rows[i := row])
  {
    var after := rows[i := row];
    forall a, b | 0 <= a < b < |after| ensures after[a].email != after[b].email {
      if a == i {
        assert rows[b].id != row.id;
      } else if b == i {
        assert rows[a].id != row.id;
      }
    }
  }

  /** Under unique ids and emails, the stored user's own email is held by nobody else. */
  lemma {:induction false} OwnEmailNotHeldByOther(rows: seq<User>, id: int)
    requires UniqueIds(rows) && EmailsUnique(rows) && ById(rows, id).Some?
    ensures !EmailHeldByOther(rows, ById(rows, id).value.email, id)
  {
    var u := ById(rows, id).value;
    var k :| 0 <= k < |rows| && rows[k] == u;
    forall i | 0 <= i < |rows| && rows[i].email == u.email ensures rows[i].id == id {
      assert i == k;
    }
  }

  /** The DAO over the `users` table. */
  class UserDao {
    const emailUnique: bool
    var rows: seq<User>
    var lastId: int

    ghost predicate Valid()
      reads this
    {
      WellFormed(rows, lastId) && (emailUnique ==> EmailsUnique(rows))
    }

    constructor (emailUnique: bool)
      ensures Valid() && rows == [] && lastId == 0 && this.emailUnique == emailUnique
    {
      this.emailUnique := emailUnique;
      rows := [];
      lastId := 0;
    }

    /**
     * `insert`: ABORT on a conflict, which Kotlin sees as an exception (here `None`) with the
     * table unchanged; otherwise the user is stored and its id returned.
     */
    method Insert(u: User) returns (r: Option<int>)
      requires Valid()
      modifies this
      ensures Valid()
      ensures r.None? <==> InsertConflicts(old(rows), old(lastId), emailUnique, u)
      ensures r.None? ==> rows == old(rows) && lastId == old(lastId)
      ensures r.Some? ==> r.value == InsertId(u, old(lastId)) && rows == old(rows) + [u.(id := r.value)]
      ensures r.Some? ==> ById(rows, r.value) == Some(u.(id := r.value))
      ensures r.Some? ==> forall j :: j != r.value ==> ById(rows, j) == ById(old(rows), j)
      ensures r.Some? ==> lastId == if r.value > old(lastId) then r.value else old(lastId)
    {
      if InsertConflicts(rows, lastId, emailUnique, u) {
        return None;
      }
      var k := InsertId(u, lastId);
      var row := u.(id := k);
      AppendUser(rows, row);
      if emailUnique {
        EmailsUniqueAppend(rows, row);
      }
      rows := rows + [row];
      if k > lastId {
        lastId := k;
      }
      r := Some(k);
    }

    /**
     * An UPDATE of the row holding `u.id` (Room's `@Update`), which the DAO does not declare: the
     * corrected password change relies on it. It fails with the table unchanged when no row has
     * that id or, under a unique email index, when another user holds `u.email`.
     */
    method Update(u: User) returns (ok: bool)
      requires Valid()
      modifies this
      ensures Valid() && lastId == old(lastId) && |rows| == |old(rows)|
      ensures ok <==> (ById(old(rows), u.id).Some? && !(emailUnique && EmailHeldByOther(old(rows), u.email, u.id)))
      ensures !ok ==> rows == old(rows)
      ensures ok ==> ById(rows, u.id) == Some(u)
      ensures ok ==> forall j :: j != u.id ==> ById(rows, j) == ById(old(rows), j)
    {
      var found := ById(rows, u.id);
      if found.None? || (emailUnique && EmailHeldByOther(rows, u.email, u.id)) {
        return false;
      }
      var i :| 0 <= i < |rows| && rows[i] == found.value;
      ReplaceUser(rows, i, u);
      if emailUnique {
        EmailsUniqueReplace(rows, i, u);
      }
      rows := rows[i := u];
      ok := true;
    }
  }
}
