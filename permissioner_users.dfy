/** The user-management rules of the server's `Permissioner`
    (server/src/streaming/users/permissioner_rules/users.rs). Each rule looks
    the caller up in the map of global permissions and tests one flag:
    reading users needs `read_users`, changing them needs `manage_users`;
    every other case, including an unknown caller, is `Unauthorized`. */
module Permissions {
  import opened Errors

  type UserId = x: int | 0 <= x < 0x1_0000_0000

  /** The two flags of `GlobalPermissions` that these rules read. */
  datatype GlobalPermissions = GlobalPermissions(manageUsers: bool, readUsers: bool)

  /** The part of `Permissioner` these rules read: `users_permissions`. */
  datatype Permissioner = Permissioner(usersPermissions: map<UserId, GlobalPermissions>)

  predicate CanReadUsers(p: Permissioner, userId: UserId)
  {
    userId in p.usersPermissions && p.usersPermissions[userId].readUsers
  }

  predicate CanManageUsers(p: Permissioner, userId: UserId)
  {
    userId in p.usersPermissions && p.usersPermissions[userId].manageUsers
  }

  /** `read_users`. */
  function ReadUsers(p: Permissioner, userId: UserId): (r: Result<(), Error>)
    ensures r.Ok? <==> CanReadUsers(p, userId)
    ensures r.Err? ==> r.error == Unauthorized
  {
    if CanReadUsers(p, userId) then Ok(())
    else Err(Unauthorized)
  }

  /** `manager_users`. */
  function ManageUsers(p: Permissioner, userId: UserId): (r: Result<(), Error>)
    ensures r.Ok? <==> CanManageUsers(p, userId)
    ensures r.Err? ==> r.error == Unauthorized
  {
    if CanManageUsers(p, userId) then Ok(())
    else Err(Unauthorized)
  }

  function GetUser(p: Permissioner, userId: UserId): (r: Result<(), Error>)
    ensures r.Ok? <==> CanReadUsers(p, userId)
    ensures r.Err? ==> r.error == Unauthorized
  {
    ReadUsers(p, userId)
  }

  function GetUsers(p: Permissioner, userId: UserId): (r: Result<(), Error>)
    ensures r.Ok? <==> CanReadUsers(p, userId)
    ensures r.Err? ==> r.error == Unauthorized
  {
    ReadUsers(p, userId)
  }

  function CreateUser(p: Permissioner, userId: UserId): (r: Result<(), Error>)
    ensures r.Ok? <==> CanManageUsers(p, userId)
    ensures r.Err? ==> r.error == Unauthorized
  {
    ManageUsers(p, userId)
  }

  function DeleteUser(p: Permissioner, userId: UserId): (r: Result<(), Error>)
    ensures r.Ok? <==> CanManageUsers(p, userId)
    ensures r.Err? ==> r.error == Unauthorized
  {
    ManageUsers(p, userId)
  }

  function UpdateUser(p: Permissioner, userId: UserId): (r: Result<(), Error>)
    ensures r.Ok? <==> CanManageUsers(p, userId)
    ensures r.Err? ==> r.error == Unauthorized
  {
    ManageUsers(p, userId)
  }

  function UpdatePermissions(p: Permissioner, userId: UserId): (r: Result<(), Error>)
    ensures r.Ok? <==> CanManageUsers(p, userId)
    ensures r.Err? ==> r.error == Unauthorized
  {
    ManageUsers(p, userId)
  }

  function ChangePassword(p: Permissioner, userId: UserId): (r: Result<(), Error>)
    ensures r.Ok? <==> CanManageUsers(p, userId)
    ensures r.Err? ==> r.error == Unauthorized
  {
    ManageUsers(p, userId)
  }

  /** The user operations, as a decision table: which flag each one needs. */
  datatype UserOperation =
    | GetUserOp | GetUsersOp
    | CreateUserOp | DeleteUserOp | UpdateUserOp | UpdatePermissionsOp | ChangePasswordOp

  predicate NeedsManageUsers(op: UserOperation)
  {
    !(op.GetUserOp? || op.GetUsersOp?)
  }

  /** The rule for `op`, dispatched to the function the source has for it. */
  function Check(p: Permissioner, op: UserOperation, userId: UserId): Result<(), Error>
  {
    match op
    case GetUserOp => GetUser(p, userId)
    case GetUsersOp => GetUsers(p, userId)
    case CreateUserOp => CreateUser(p, userId)
    case DeleteUserOp => DeleteUser(p, userId)
    case UpdateUserOp => UpdateUser(p, userId)
    case UpdatePermissionsOp => UpdatePermissions(p, userId)
    case ChangePasswordOp => ChangePassword(p, userId)
  }

  /** Every operation succeeds exactly when the caller has an entry whose
      required flag is set, and fails only with `Unauthorized`. */
  lemma CheckMatchesTable(p: Permissioner, op: UserOperation, userId: UserId)
    ensures Check(p, op, userId).Ok? <==>
              userId in p.usersPermissions &&
              (if NeedsManageUsers(op) then p.usersPermissions[userId].manageUsers
               else p.usersPermissions[userId].readUsers)
    ensures Check(p, op, userId).Err? ==> Check(p, op, userId) == Err(Unauthorized)
  {
  }

  /** A caller without an entry is refused every operation. */
  lemma UnknownUserIsUnauthorized(p: Permissioner, op: UserOperation, userId: UserId)
    requires userId !in p.usersPermissions
    ensures Check(p, op, userId) == Err(Unauthorized)
  {
  }

  /** The decision depends on the caller's own entry only: the entries of
      other users do not matter. */
  lemma DecisionIsLocal(p: Permissioner, q: Permissioner, op: UserOperation, userId: UserId)
    requires userId in p.usersPermissions <==> userId in q.usersPermissions
    requires userId in p.usersPermissions ==>
               p.usersPermissions[userId] == q.usersPermissions[userId]
    ensures Check(p, op, userId) == Check(q, op, userId)
  {
  }

  /** The read rule ignores `manage_users`, and the manage rule ignores
      `read_users`. */
  lemma FlagsAreIndependent(p: Permissioner, userId: UserId, g: GlobalPermissions, manage: bool, read: bool)
    requires userId in p.usersPermissions && p.usersPermissions[userId] == g
    ensures var withManage := Permissioner(p.usersPermissions[userId := g.(manageUsers := manage)]);
            ReadUsers(withManage, userId) == ReadUsers(p, userId)
    ensures var withRead := Permissioner(p.usersPermissions[userId := g.(readUsers := read)]);
            ManageUsers(withRead, userId) == ManageUsers(p, userId)
  {
  }

  /** Neither flag implies the other: a reader need not be a manager, and a
      manager need not be a reader. */
  lemma NeitherFlagImpliesTheOther(userId: UserId)
    ensures var reader := Permissioner(map[userId := GlobalPermissions(false, true)]);
            ReadUsers(reader, userId).Ok? && ManageUsers(reader, userId).Err?
    ensures var manager := Permissioner(map[userId := GlobalPermissions(true, false)]);
            ManageUsers(manager, userId).Ok? && ReadUsers(manager, userId).Err?
  {
  }
}
