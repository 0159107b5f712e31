/** The `/user/<uuid>` and `/whoami` routes. */
module ApiUser {
  import opened Base
  import opened Uuid
  import opened Models
  import opened Api

  /** `user::get`: a caller may read only their own record. */
  function Get(caller: User, id: Uuid): Result<User, Error>
  {
    if id != caller.id then Err(LackPermissions) else Ok(caller)
  }

  /** `user::whoami`. */
  function Whoami(caller: User): User
  {
    caller
  }

  /**
   * `get` succeeds exactly for the caller's own id and then gives back the
   * caller; any other id lacks permissions, admin or not.
   */
  lemma GetSelfOnly(caller: User, id: Uuid, admin: bool)
    ensures Get(caller, id).Ok? <==> id == caller.id
    ensures Get(caller, id).Ok? ==> Get(caller, id).value == caller
    ensures Get(caller, id).Err? ==> Get(caller, id).error == LackPermissions
    ensures Get(caller.(isAdmin := admin), id).Ok? == Get(caller, id).Ok?
  {
  }

  /** `whoami` is `get` of the caller's own id. */
  lemma WhoamiIsGetSelf(caller: User)
    ensures Get(caller, caller.id) == Ok(Whoami(caller))
  {
  }
}
