/** The `EnsureUserCanManageUsers` middleware. */
module EnsureUserCanManageUsers {
  import opened Php
  import opened Roles
  import opened Database

  /** `handle`: 403 unless there is a user whose role is suporte or sindico;
      0 means the next handler runs. */
  function Handle(user: Option<User>): (status: int)
    ensures status == 0 || status == 403
    ensures status == 0 <==> user.Some? && (user.value.role == SUPORTE || user.value.role == SINDICO)
  {
    if user.None? || !(user.value.role == SUPORTE || user.value.role == SINDICO) then 403 else 0
  }
}
