/** `UserViewSet.get_permissions`: which permission an action of the user
    endpoints requires, and whom that permission admits. */
module UserPermissions {

  datatype Permission = AllowAny | IsAuthenticated | IsAdminUser

  /** The requesting user: anonymous, or signed in with its staff flag. */
  datatype Requester = Anonymous | SignedIn(isStaff: bool)

  /** The permission required by the action named `action`. */
  function RequiredPermission(action: string): Permission {
    if action == "create" then AllowAny
    else if action == "me" then IsAuthenticated
    else IsAdminUser
  }

  /** Whether a permission class admits the requester. */
  predicate Grants(p: Permission, who: Requester) {
    match p
    case AllowAny => true
    case IsAuthenticated => who.SignedIn?
    case IsAdminUser => who.SignedIn? && who.isStaff
  }

  /** Registration is open to everyone, the own profile to every signed-in
      user, and every other action to staff users only. */
  lemma ActionAccess(action: string, who: Requester)
    ensures Grants(RequiredPermission(action), who) <==>
      action == "create" || (action == "me" && who.SignedIn?) || (who.SignedIn? && who.isStaff)
  {
  }

  /** Granting is monotone in privilege: whatever an anonymous requester may
      do a signed-in one may, and whatever a signed-in one may a staff one may. */
  lemma PrivilegeMonotone(action: string, staff: bool)
    ensures Grants(RequiredPermission(action), Anonymous) ==> Grants(RequiredPermission(action), SignedIn(staff))
    ensures Grants(RequiredPermission(action), SignedIn(staff)) ==> Grants(RequiredPermission(action), SignedIn(true))
  {
  }
}
