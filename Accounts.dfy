/**
 * User accounts: `UserProfileManager.create_user` / `create_superuser` and the
 * `User` model whose email is unique.
 *
 * The database table holds row VALUES; a `User` is an in-memory instance whose
 * fields the manager sets one by one before `save` copies them into the table.
 * Email normalisation and password hashing belong to the framework and are
 * parameters of the manager.
 */
module Accounts {
  import opened Wrappers

  /** The stored password: never set, deliberately unusable (`set_password(None)`)
      or the output of the password hasher. The raw password is never stored. */
  datatype Credential = NotSet | Unusable | Hashed(digest: string)

  /** What `set_password(raw)` stores. */
  function CredentialFor(raw: Option<string>, makePassword: string -> string): Credential {
    match raw
    case None => Unusable
    case Some(p) => Hashed(makePassword(p))
  }

  /** One row of the users table. */
  datatype UserRow = UserRow(id: nat, email: string, name: string, isStaff: bool, isSuperuser: bool, password: Credential)

  /** `ValueError` for an empty email; `IntegrityError` from the unique email column. */
  datatype AccountError = EmptyEmail | DuplicateEmail

  ghost predicate UniqueEmails(rows: seq<UserRow>) {
    forall i, j :: 0 <= i < j < |rows| ==> rows[i].email != rows[j].email
  }

  ghost predicate UniqueIds(rows: seq<UserRow>) {
    forall i, j :: 0 <= i < j < |rows| ==> rows[i].id != rows[j].id
  }

  /** Some row holds this email. */
  predicate EmailTaken(rows: seq<UserRow>, email: string) {
    exists i :: 0 <= i < |rows| && rows[i].email == email
  }

  /** A row other than the one with primary key `pk` holds this email. */
  predicate EmailTakenByOther(rows: seq<UserRow>, email: string, pk: nat) {
    exists i :: 0 <= i < |rows| && rows[i].email == email && rows[i].id != pk
  }

  /** Position of the row with primary key `pk`, or -1. */
  function IndexOfId(rows: seq<UserRow>, pk: nat): (k: int)
    ensures -1 <= k < |rows|
    ensures k >= 0 ==> rows[k].id == pk
    ensures k < 0 ==> forall i :: 0 <= i < |rows| ==> rows[i].id != pk
  {
    if rows == [] then -1
    else if rows[|rows| - 1].id == pk then |rows| - 1
    else IndexOfId(rows[..|rows| - 1], pk)
  }

  /** The table after `save` writes `row`: an UPDATE of the row with its
      primary key, or an INSERT when there is none. */
  function Upsert(rows: seq<UserRow>, row: UserRow): seq<UserRow> {
    var k := IndexOfId(rows, row.id);
    if k >= 0 then rows[k := row] else rows + [row]
  }

  /** Writing a row whose email no other row holds keeps emails and primary
      keys unique. */
  lemma UpsertKeepsUnique(rows: seq<UserRow>, row: UserRow)
    requires UniqueEmails(rows) && UniqueIds(rows)
    requires !EmailTakenByOther(rows, row.email, row.id)
    ensures UniqueEmails(Upsert(rows, row)) && UniqueIds(Upsert(rows, row))
    ensures row in Upsert(rows, row)
    ensures forall x :: x in Upsert(rows, row) ==> x == row || x in rows
  {
    var k := IndexOfId(rows, row.id);
    var r := Upsert(rows, row);
    forall i, j | 0 <= i < j < |r| ensures r[i].email != r[j].email && r[i].id != r[j].id {
      if k >= 0 {
        if i == k {
          assert r[j] == rows[j];
        } else if j == k {
          assert r[i] == rows[i];
        } else {
          assert r[i] == rows[i] && r[j] == rows[j];
        }
      } else if j == |rows| {
        assert r[i] == rows[i];
      } else {
        assert r[i] == rows[i] && r[j] == rows[j];
      }
    }
    if k >= 0 {
      assert r[k] == row;
    } else {
      assert r[|rows|] == row;
    }
  }

  /** An in-memory `User` instance. `id` is `None` until it is first saved. */
  class User {
    var id: Option<nat>
    var email: string
    var name: string
    var isStaff: bool
    var isSuperuser: bool
    var password: Credential

    /** `User(email=..., name=...)`: an unsaved instance with the model's defaults. */
    constructor (email: string, name: string)
      ensures id == None && this.email == email && this.name == name
      ensures !isStaff && !isSuperuser && password == NotSet
    {
      id := None;
      this.email := email;
      this.name := name;
      isStaff := false;
      isSuperuser := false;
      password := NotSet;
    }

    /** The row `save` writes for this instance under primary key `pk`. */
    function RowWith(pk: nat): (r: UserRow)
      reads this
    {
      UserRow(pk, email, name, isStaff, isSuperuser, password)
    }

    /** `set_password`: only the hasher's output is kept. */
    method SetPassword(raw: Option<string>, makePassword: string -> string)
      modifies this`password
      ensures password == CredentialFor(raw, makePassword)
    {
      password := CredentialFor(raw, makePassword);
    }
  }

  /** The users table, with its unique email column. */
  class UserTable {
    var rows: seq<UserRow>
    var nextId: nat

    ghost predicate Valid()
      reads this
    {
      UniqueEmails(rows) && UniqueIds(rows) && forall i :: 0 <= i < |rows| ==> rows[i].id < nextId
    }

    constructor ()
      ensures Valid() && rows == [] && nextId == 1
    {
      rows := [];
      nextId := 1;
    }

    /** `user.save()`: an instance without primary key is inserted under the
        next key, which it then carries; an instance with one updates that row
        (or is inserted under it when the row is gone). A row whose email
        another row holds is refused and nothing changes. */
    method Save(u: User) returns (ok: bool)
      requires Valid()
      modifies this, u`id
      ensures Valid()
      ensures var pk := if old(u.id).Some? then old(u.id).value else old(nextId);
        && (ok <==> !EmailTakenByOther(old(rows), u.email, pk))
        && (ok ==> rows == Upsert(old(rows), u.RowWith(pk)) && u.id == Some(pk))
        && (ok ==> nextId == if pk < old(nextId) then old(nextId) else pk + 1)
        && (!ok ==> rows == old(rows) && nextId == old(nextId) && u.id == old(u.id))
    {
      var pk := if u.id.Some? then u.id.value else nextId;
      if exists i :: 0 <= i < |rows| && rows[i].email == u.email && rows[i].id != pk {
        ok := false;
      } else {
        var row := u.RowWith(pk);
        UpsertKeepsUnique(rows, row);
        rows := Upsert(rows, row);
        if nextId <= pk {
          nextId := pk + 1;
        }
        u.id := Some(pk);
        ok := true;
      }
    }
  }

  /** `UserProfileManager`: creates users in `db`. */
  class UserProfileManager {
    const db: UserTable
    /** `normalize_email` of the framework. */
    const normalizeEmail: string -> string
    /** The password hasher behind `set_password`. */
    const makePassword: string -> string

    constructor (db: UserTable, normalizeEmail: string -> string, makePassword: string -> string)
      ensures this.db == db && this.normalizeEmail == normalizeEmail && this.makePassword == makePassword
    {
      this.db := db;
      this.normalizeEmail := normalizeEmail;
      this.makePassword := makePassword;
    }

    /** `create_user`: refuses an empty email; otherwise saves a new user with
        the normalised email, the given name, neither staff nor superuser,
        and the hashed password. Saving fails when the normalised email is
        already held. */
    method CreateUser(email: string, name: string, password: Option<string>) returns (r: Result<User, AccountError>)
      requires db.Valid()
      modifies db
      ensures db.Valid()
      ensures email == "" ==> r == Failure(EmptyEmail)
      ensures email != "" ==> (r.Success? <==> !EmailTaken(old(db.rows), normalizeEmail(email)))
      ensures r.Failure? ==> db.rows == old(db.rows) && db.nextId == old(db.nextId)
      ensures r.Failure? && email != "" ==> r.error == DuplicateEmail
      ensures r.Success? ==>
        && fresh(r.value)
        && r.value.id == Some(old(db.nextId))
        && r.value.email == normalizeEmail(email)
        && r.value.name == name
        && !r.value.isStaff && !r.value.isSuperuser
        && r.value.password == CredentialFor(password, makePassword)
        && db.rows == old(db.rows) + [r.value.RowWith(old(db.nextId))]
        && db.nextId == old(db.nextId) + 1
    {
      if email == "" {
        return Failure(EmptyEmail);
      }
      var user := new User(normalizeEmail(email), name);
      user.isSuperuser := false;
      user.isStaff := false;
      user.SetPassword(password, makePassword);
      assert EmailTakenByOther(db.rows, user.email, db.nextId) <==> EmailTaken(db.rows, user.email);
      assert IndexOfId(db.rows, db.nextId) < 0;
      var ok := db.Save(user);
      if ok {
        r := Success(user);
      } else {
        r := Failure(DuplicateEmail);
      }
    }

    /** `create_superuser`: `create_user`, then both flags set and saved again. */
    method CreateSuperuser(email: string, name: string, password: Option<string>) returns (r: Result<User, AccountError>)
      requires db.Valid()
      modifies db
      ensures db.Valid()
      ensures email == "" ==> r == Failure(EmptyEmail)
      ensures email != "" ==> (r.Success? <==> !EmailTaken(old(db.rows), normalizeEmail(email)))
      ensures r.Failure? ==> db.rows == old(db.rows)
      ensures r.Failure? && email != "" ==> r.error == DuplicateEmail
      ensures r.Success? ==>
        && fresh(r.value)
        && r.value.id == Some(old(db.nextId))
        && r.value.email == normalizeEmail(email)
        && r.value.name == name
        && r.value.isStaff && r.value.isSuperuser
        && r.value.password == CredentialFor(password, makePassword)
        && db.rows == old(db.rows) + [r.value.RowWith(old(db.nextId))]
    {
      r := CreateUser(email, name, password);
      if r.Success? {
        var user := r.value;
        ghost var before := old(db.rows);
        ghost var pk := old(db.nextId);
        user.isSuperuser := true;
        user.isStaff := true;
        user.SetPassword(password, makePassword);
        assert db.rows[|before|].email == user.email;
        assert !EmailTakenByOther(db.rows, user.email, pk);
        assert IndexOfId(db.rows, pk) == |before|;
        var ok := db.Save(user);
        assert db.rows == before + [user.RowWith(pk)];
      }
    }
  }
}
