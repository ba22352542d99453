/** The `EnsureUserIsSupport` middleware. Despite its name it admits only the
    sindico role. */
module EnsureUserIsSupport {
  import opened Php
  import opened Roles
  import opened Database

  /** `handle`: 403 unless there is a user whose role is sindico; 0 means the
      next handler runs. */
  function Handle(user: Option<User>): (status: int)
    ensures status == 0 || status == 403
    ensures status == 0 <==> user.Some? && user.value.role == SINDICO
  {
    if user.None? || user.value.role != SINDICO then 403 else 0
  }

  /** A suporte caller is turned away by the middleware named after it. */
  lemma SupportIsRefused(user: User)
    requires IsSuporte(user.role)
    ensures Handle(Some(user)) == 403
  {
  }
}
