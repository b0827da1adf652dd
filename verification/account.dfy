/** The signed-in user as the pages see it, and the one role check they share. */
module Account {
  import opened Wrappers

  /** The `user` object; both fields may be missing. */
  datatype User = User(username: Option<string>, role: Option<string>)

  const AdminRole: string := "admin"

  /** `user?.role === 'admin'`: an exact, case-sensitive match. */
  predicate IsAdmin(user: Option<User>) {
    user.Some? && user.value.role == Some(AdminRole)
  }

  /** No user, a missing role or any other spelling of the role is not an administrator. */
  lemma IsAdminExactly(user: Option<User>)
    ensures IsAdmin(user) <==> user.Some? && user.value.role.Some? && user.value.role.value == AdminRole
    ensures user.Some? && user.value.role == Some("Admin") ==> !IsAdmin(user)
  {
  }
}
