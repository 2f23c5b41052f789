/** The user service: the guarded role change (only a super administrator
    may change roles) and per-user statistics. The signed-in caller, the
    clock and every remote outcome are parameters. */
module UserService {
  import opened Common
  import opened Types
  import opened UserTable
  import AdminService

  const AuthErrorMessage := "Authentication error"
  const VerifyRoleFailedMessage := "Failed to verify user role"
  const UnauthorizedMessage := "Unauthorized: Only super admins can modify roles"
  const UpdateFailedMessage := "Failed to update user role"
  const StatsFailedMessage := "Failed to fetch user statistics"

  /** The remote steps, in the order they are issued. */
  datatype Step = GetAuthUser | ReadCallerRole(callerId: string) | WriteRole(userId: string)

  datatype RoleRun = RoleRun(steps: seq<Step>, users: seq<User>, outcome: Result<User>)

  /** `updateUserRole`. `caller` is the outcome of `auth.getUser()` (the
      caller's id, or the auth error); `readOk` and `writeOk` say whether the
      store answers the role read and the update. Both the read and the
      update end in `.single()`, so each needs exactly one row. */
  function UpdateUserRole(users: seq<User>, caller: Result<string>, readOk: bool,
                          userId: string, role: Role, writeOk: bool, now: int): (run: RoleRun)
    ensures |run.steps| >= 1 && run.steps[0] == GetAuthUser
    ensures caller.Err? ==> run.steps == [GetAuthUser] && run.outcome == Err(AuthErrorMessage)
    ensures run.outcome.Ok? <==>
      && caller.Ok?
      && SingleById(users, caller.value, readOk).Found?
      && SingleById(users, caller.value, readOk).row.role == SuperAdmin
      && writeOk && |WithId(users, userId)| == 1
    ensures run.outcome.Err? ==> run.users == users
    ensures run.outcome.Ok? ==> run.users == SetRole(users, userId, role, Some(now))
    ensures run.outcome.Ok? ==>
      (run.outcome.value.id == userId && run.outcome.value.role == role
       && run.outcome.value.updatedAt == now && run.outcome.value in run.users)
    ensures WriteRole(userId) in run.steps ==>
      caller.Ok? && SingleById(users, caller.value, readOk).Found?
      && SingleById(users, caller.value, readOk).row.role == SuperAdmin
  {
    match caller
    case Err(_) => RoleRun([GetAuthUser], users, Err(AuthErrorMessage))
    case Ok(callerId) =>
      var read := [GetAuthUser, ReadCallerRole(callerId)];
      match SingleById(users, callerId, readOk)
      case Failed => RoleRun(read, users, Err(VerifyRoleFailedMessage))
      case NotFound => RoleRun(read, users, Err(VerifyRoleFailedMessage))
      case Found(me) =>
        if me.role != SuperAdmin then RoleRun(read, users, Err(UnauthorizedMessage))
        else
          var steps := read + [WriteRole(userId)];
          var target := SingleById(users, userId, true);
          if !writeOk || !target.Found? then RoleRun(steps, users, Err(UpdateFailedMessage))
          else
            var updated := SetRole(users, userId, role, Some(now));
            var row := target.row.(role := role, updatedAt := now);
            assert row in updated by {
              var i :| 0 <= i < |users| && users[i] == target.row;
              assert updated[i] == row;
            }
            RoleRun(steps, updated, Ok(row))
  }

  /** Each failure carries the message of the first check that failed. */
  lemma RoleUpdateErrors(users: seq<User>, caller: Result<string>, readOk: bool,
                         userId: string, role: Role, writeOk: bool, now: int)
    requires caller.Ok?
    ensures var run := UpdateUserRole(users, caller, readOk, userId, role, writeOk, now);
      && (!SingleById(users, caller.value, readOk).Found? ==>
            run.outcome == Err(VerifyRoleFailedMessage) && |run.steps| == 2)
      && (SingleById(users, caller.value, readOk).Found?
          && SingleById(users, caller.value, readOk).row.role != SuperAdmin ==>
            run.outcome == Err(UnauthorizedMessage) && |run.steps| == 2)
      && (SingleById(users, caller.value, readOk).Found?
          && SingleById(users, caller.value, readOk).row.role == SuperAdmin
          && (!writeOk || |WithId(users, userId)| != 1) ==>
            run.outcome == Err(UpdateFailedMessage) && |run.steps| == 3)
  {
  }

  /** The two services disagree on authority: where the user service refuses
      a caller who is not a super administrator, the administrator service
      performs the same role change. */
  lemma AdminPathSkipsAuthorisation(users: seq<User>, callerId: string, userId: string, role: Role, now: int)
    requires SingleById(users, callerId, true).Found?
    requires SingleById(users, callerId, true).row.role != SuperAdmin
    ensures UpdateUserRole(users, Ok(callerId), true, userId, role, true, now).outcome == Err(UnauthorizedMessage)
    ensures UpdateUserRole(users, Ok(callerId), true, userId, role, true, now).users == users
    ensures AdminService.UpdateUserRole(users, userId, role, true).Ok?
  {
  }

  datatype UserStats = UserStats(totalQuizzesTaken: real, averageScore: real, studyGuidesAccessed: real)

  /** `getUserStats`, given the outcome of the RPC (`None` for no data). */
  function GetUserStats(rpc: Result<Option<UserStats>>): (r: Result<UserStats>)
    ensures r.Err? <==> rpc.Err?
    ensures r.Err? ==> r.message == StatsFailedMessage
    ensures rpc.Ok? && rpc.value.Some? ==> r == Ok(rpc.value.value)
    ensures rpc.Ok? && rpc.value.None? ==> r == Ok(UserStats(0.0, 0.0, 0.0))
  {
    match rpc
    case Err(_) => Err(StatsFailedMessage)
    case Ok(data) => Ok(data.GetOr(UserStats(0.0, 0.0, 0.0)))
  }
}
