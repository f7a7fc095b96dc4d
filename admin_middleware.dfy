/** middleware/AdminMiddleware.php: the admin check that runs after
    authentication on the admin routes. */
module AdminMiddleware {
  import opened Common
  import opened Users

  /** `checkAdmin` on the `$currentUser` global: presence first, then the
      role, compared exactly with 'admin'. */
  function CheckAdmin(currentUser: Option<Profile>): (r: Gate)
    ensures r == Pass <==> currentUser.Some? && currentUser.value.role == "admin"
    ensures currentUser.None? ==> r == Halt(401, "Authentication required")
    ensures currentUser.Some? && currentUser.value.role != "admin" ==>
      r == Halt(403, "Access denied. Admin privileges required")
  {
    if currentUser.None? then Halt(401, "Authentication required")
    else if currentUser.value.role != "admin" then Halt(403, "Access denied. Admin privileges required")
    else Pass
  }

  /** The comparison is exact: a role differing only in case is refused. */
  lemma RoleIsCaseSensitive(p: Profile)
    requires p.role == "Admin"
    ensures CheckAdmin(Some(p)) == Halt(403, "Access denied. Admin privileges required")
  {
  }
}
