/**
 * `UserSerializer` and the registration endpoint of `UserViewSet`.
 *
 * Validation collects the fields that fail into a set; on success the
 * validated data keeps email, name and password and drops the read-only id.
 * The email syntax check of the framework is a parameter.
 */
module UserApi {
  import opened Wrappers
  import opened Accounts

  datatype UserField = Email | Name | Password

  /** A request body; a field the client did not send is `None`. */
  datatype UserPayload = UserPayload(id: Option<nat>, email: Option<string>, name: Option<string>, password: Option<string>)

  /** `validated_data`: the writable fields the client sent. */
  datatype UserData = UserData(email: Option<string>, name: Option<string>, password: Option<string>)

  /** The serialized user: `id`, `email`, `name`; the password is write-only. */
  datatype UserOutput = UserOutput(id: Option<nat>, email: string, name: string)

  const MinPasswordLength: nat := 8

  /** The unique validator: another user already has this exact email. When
      an instance is being updated its own row does not count. */
  predicate EmailHeldByOther(rows: seq<UserRow>, email: string, instance: Option<nat>) {
    exists i :: 0 <= i < |rows| && rows[i].email == email && (instance.None? || rows[i].id != instance.value)
  }

  /** The email field fails: missing (unless partial), blank, not an email
      address, or already held. */
  predicate EmailRejected(rows: seq<UserRow>, isEmailAddress: string -> bool, email: Option<string>,
                          instance: Option<nat>, partial: bool) {
    match email
    case None => !partial
    case Some(e) => e == "" || !isEmailAddress(e) || EmailHeldByOther(rows, e, instance)
  }

  /** The password field fails: missing (unless partial) or shorter than 8. */
  predicate PasswordRejected(password: Option<string>, partial: bool) {
    match password
    case None => !partial
    case Some(p) => |p| < MinPasswordLength
  }

  /** `is_valid()`: the set of failing fields, or the validated data. The name
      is optional and may be blank, so it never fails. */
  function Validate(rows: seq<UserRow>, isEmailAddress: string -> bool, payload: UserPayload,
                    instance: Option<nat>, partial: bool): (r: Result<UserData, set<UserField>>)
    ensures r.Success? ==> r.value == UserData(payload.email, payload.name, payload.password)
    ensures r.Success? && !partial ==>
      && payload.email.Some? && payload.email.value != "" && isEmailAddress(payload.email.value)
      && !EmailHeldByOther(rows, payload.email.value, instance)
      && payload.password.Some? && |payload.password.value| >= MinPasswordLength
    ensures r.Success? <==>
      !EmailRejected(rows, isEmailAddress, payload.email, instance, partial) && !PasswordRejected(payload.password, partial)
    ensures r.Failure? ==> r.error != {} && Name !in r.error
    ensures r.Failure? ==> (Email in r.error <==> EmailRejected(rows, isEmailAddress, payload.email, instance, partial))
    ensures r.Failure? ==> (Password in r.error <==> PasswordRejected(payload.password, partial))
    ensures payload.email.Some? && EmailHeldByOther(rows, payload.email.value, instance) ==>
      r.Failure? && Email in r.error
    ensures payload.password.Some? && |payload.password.value| < MinPasswordLength ==>
      r.Failure? && Password in r.error
  {
    var errors :=
      (if EmailRejected(rows, isEmailAddress, payload.email, instance, partial) then {Email} else {}) +
      (if PasswordRejected(payload.password, partial) then {Password} else {});
    if errors == {} then Success(UserData(payload.email, payload.name, payload.password))
    else Failure(errors)
  }

  /** `id` is read-only: whatever id the client sends, validation is the same. */
  lemma IdIsReadOnly(rows: seq<UserRow>, isEmailAddress: string -> bool, payload: UserPayload,
                     instance: Option<nat>, partial: bool, clientId: Option<nat>)
    ensures Validate(rows, isEmailAddress, payload.(id := clientId), instance, partial) ==
            Validate(rows, isEmailAddress, payload, instance, partial)
  {
  }

  /** The unique validator compares the email as sent, while the table holds
      normalised emails: an address that differs from a stored one only in the
      case of its domain passes validation and is then refused by the unique
      column when `create_user` saves it. */
  lemma UniqueCheckPrecedesNormalization(isEmailAddress: string -> bool, normalizeEmail: string -> string)
    requires isEmailAddress("bob@EXAMPLE.com")
    requires normalizeEmail("bob@EXAMPLE.com") == "bob@example.com"
    ensures var rows := [UserRow(1, "bob@example.com", "Bob", false, false, NotSet)];
      && Validate(rows, isEmailAddress, UserPayload(None, Some("bob@EXAMPLE.com"), None, Some("Sup3rS3cret!")), None, false).Success?
      && EmailTaken(rows, normalizeEmail("bob@EXAMPLE.com"))
  {
    var rows := [UserRow(1, "bob@example.com", "Bob", false, false, NotSet)];
    assert "bob@EXAMPLE.com"[4] != "bob@example.com"[4];
    assert !EmailHeldByOther(rows, "bob@EXAMPLE.com", None);
    assert |"Sup3rS3cret!"| == 12;
    assert rows[0].email == "bob@example.com";
  }

  /** `to_representation`. */
  function Representation(u: User): UserOutput
    reads u
  {
    UserOutput(u.id, u.email, u.name)
  }

  /** The password is write-only: users differing only in password, staff or
      superuser flags serialize identically. */
  lemma PasswordNeverSerialized(u: User, v: User)
    requires u.id == v.id && u.email == v.email && u.name == v.name
    ensures Representation(u) == Representation(v)
  {
  }

  /** `create`: the password is taken out of the data and the user is made by
      `create_user`, with a missing name stored as `""`. */
  method Create(manager: UserProfileManager, data: UserData) returns (r: Result<User, AccountError>)
    requires manager.db.Valid()
    requires data.email.Some? && data.password.Some?
    modifies manager.db
    ensures manager.db.Valid()
    ensures r.Success? <==> data.email.value != "" && !EmailTaken(old(manager.db.rows), manager.normalizeEmail(data.email.value))
    ensures r.Failure? ==> manager.db.rows == old(manager.db.rows)
    ensures r.Failure? ==> r.error == if data.email.value == "" then EmptyEmail else DuplicateEmail
    ensures r.Success? ==>
      && fresh(r.value)
      && r.value.id == Some(old(manager.db.nextId))
      && r.value.email == manager.normalizeEmail(data.email.value)
      && r.value.name == data.name.GetOr("")
      && !r.value.isStaff && !r.value.isSuperuser
      && r.value.password == Hashed(manager.makePassword(data.password.value))
      && manager.db.rows == old(manager.db.rows) + [r.value.RowWith(old(manager.db.nextId))]
  {
    var password := data.password.value;
    r := manager.CreateUser(data.email.value, data.name.GetOr(""), Some(password));
  }

  /** The attributes `update` assigns with `setattr`. */
  datatype Attr = EmailAttr | NameAttr

  /** `validated_data.items()` once the password has been popped, in field order. */
  function RemainingItems(data: UserData): seq<(Attr, string)> {
    (if data.email.Some? then [(EmailAttr, data.email.value)] else []) +
    (if data.name.Some? then [(NameAttr, data.name.value)] else [])
  }

  /** The value an attribute holds after assigning `items` in order, starting
      from `current`: the last assignment wins. */
  function Assigned(items: seq<(Attr, string)>, attr: Attr, current: string): string {
    if items == [] then current
    else if items[|items| - 1].0 == attr then items[|items| - 1].1
    else Assigned(items[..|items| - 1], attr, current)
  }

  /** Assigning the remaining items overwrites exactly the fields that were sent. */
  lemma AssignedRemaining(data: UserData, currentEmail: string, currentName: string)
    ensures Assigned(RemainingItems(data), EmailAttr, currentEmail) == data.email.GetOr(currentEmail)
    ensures Assigned(RemainingItems(data), NameAttr, currentName) == data.name.GetOr(currentName)
  {
    var items := RemainingItems(data);
    if data.email.Some? && data.name.Some? {
      assert items[..1] == [(EmailAttr, data.email.value)];
    }
  }

  /** `update`: a sent password goes through `set_password`; every other sent
      field is assigned; then the instance is saved. The instance keeps its
      new values even when the save is refused. */
  method Update(instance: User, data: UserData, db: UserTable, makePassword: string -> string) returns (ok: bool)
    requires db.Valid()
    modifies instance, db
    ensures db.Valid()
    ensures instance.email == data.email.GetOr(old(instance.email))
    ensures instance.name == data.name.GetOr(old(instance.name))
    ensures instance.password ==
      if data.password.Some? then Hashed(makePassword(data.password.value)) else old(instance.password)
    ensures instance.isStaff == old(instance.isStaff) && instance.isSuperuser == old(instance.isSuperuser)
    ensures var pk := if old(instance.id).Some? then old(instance.id).value else old(db.nextId);
      && (ok <==> !EmailTakenByOther(old(db.rows), instance.email, pk))
      && (ok ==> db.rows == Upsert(old(db.rows), instance.RowWith(pk)) && instance.id == Some(pk))
      && (!ok ==> db.rows == old(db.rows) && instance.id == old(instance.id))
  {
    if data.password.Some? {
      instance.SetPassword(data.password, makePassword);
    }
    var items := RemainingItems(data);
    ghost var email0, name0 := instance.email, instance.name;
    for i := 0 to |items|
      invariant instance.email == Assigned(items[..i], EmailAttr, email0)
      invariant instance.name == Assigned(items[..i], NameAttr, name0)
      invariant instance.id == old(instance.id)
      invariant instance.password ==
        if data.password.Some? then Hashed(makePassword(data.password.value)) else old(instance.password)
      invariant instance.isStaff == old(instance.isStaff) && instance.isSuperuser == old(instance.isSuperuser)
      invariant db.rows == old(db.rows) && db.nextId == old(db.nextId)
    {
      var (attr, value) := items[i];
      assert items[..i + 1][..i] == items[..i];
      match attr
      case EmailAttr => instance.email := value;
      case NameAttr => instance.name := value;
    }
    assert items[..|items|] == items;
    AssignedRemaining(data, email0, name0);
    ok := db.Save(instance);
  }

  datatype RegisterError = Invalid(fields: set<UserField>) | Refused(reason: AccountError)

  /** The registration endpoint: validate, then `create`; answer with the
      serialized user. */
  method Register(manager: UserProfileManager, isEmailAddress: string -> bool, payload: UserPayload)
    returns (r: Result<UserOutput, RegisterError>)
    requires manager.db.Valid()
    modifies manager.db
    ensures manager.db.Valid()
    ensures var v := Validate(old(manager.db.rows), isEmailAddress, payload, None, false);
      v.Failure? ==> r == Failure(Invalid(v.error))
    ensures var v := Validate(old(manager.db.rows), isEmailAddress, payload, None, false);
      v.Success? ==>
        && (r.Success? <==> !EmailTaken(old(manager.db.rows), manager.normalizeEmail(payload.email.value)))
        && (r.Failure? ==> r.error == Refused(DuplicateEmail))
    ensures r.Failure? ==> manager.db.rows == old(manager.db.rows)
    ensures r.Success? ==>
      && |manager.db.rows| == |old(manager.db.rows)| + 1
      && manager.db.rows[..|old(manager.db.rows)|] == old(manager.db.rows)
      && var row := manager.db.rows[|old(manager.db.rows)|];
      && r.value == UserOutput(Some(row.id), row.email, row.name)
      && payload.email.Some? && payload.password.Some?
      && row.email == manager.normalizeEmail(payload.email.value)
      && row.name == payload.name.GetOr("")
      && !row.isStaff && !row.isSuperuser
      && row.password == Hashed(manager.makePassword(payload.password.value))
  {
    var v := Validate(manager.db.rows, isEmailAddress, payload, None, false);
    if v.Failure? {
      return Failure(Invalid(v.error));
    }
    var created := Create(manager, v.value);
    if created.Failure? {
      return Failure(Refused(created.error));
    }
    var user := created.value;
    r := Success(Representation(user));
  }
}
