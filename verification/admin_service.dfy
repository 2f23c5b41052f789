/** The administrator service: role changes without a caller check,
    password resets with a random temporary password, and dashboard
    statistics. The random bytes and every remote outcome are parameters. */
module AdminService {
  import opened Common
  import opened Types
  import opened RandomText
  import opened PasswordPolicy
  import opened UserTable

  const UpdateRoleFailedMessage := "Failed to update user role"
  const ResetFailedMessage := "Failed to reset password"
  const StatsFailedPrefix := "Failed to fetch dashboard stats: "

  /** `updateUserRole`: the write is issued for whoever calls; only a store
      error fails it. An id that matches no row is not an error. */
  function UpdateUserRole(users: seq<User>, userId: string, role: Role, storeOk: bool): (r: Result<seq<User>>)
    ensures r.Ok? <==> storeOk
    ensures r.Err? ==> r.message == UpdateRoleFailedMessage
    ensures r.Ok? ==> |r.value| == |users|
    ensures r.Ok? ==> forall i :: 0 <= i < |users| ==>
      r.value[i].role == (if users[i].id == userId then role else users[i].role)
      && r.value[i].updatedAt == users[i].updatedAt
  {
    if storeOk then Ok(SetRole(users, userId, role, None)) else Err(UpdateRoleFailedMessage)
  }

  /** `generateTempPassword`: twelve bytes, each mapped to `chars[b % 70]`. */
  function GenerateTempPassword(bytes: seq<byte>): (p: string)
    requires |bytes| == 12
    ensures |p| == 12
    ensures forall i :: 0 <= i < 12 ==> p[i] == TempPasswordAlphabet[bytes[i] as int % 70]
  {
    Encode(bytes, TempPasswordAlphabet)
  }

  /** The temporary password meets the password policy exactly when some
      byte lands on an upper-case letter, some on a digit and some on a
      symbol; nothing in the generator makes sure of that. */
  lemma TempPasswordPolicy(bytes: seq<byte>)
    requires |bytes| == 12
    ensures IsPasswordValid(GenerateTempPassword(bytes)) <==>
      && (exists i :: 0 <= i < 12 && bytes[i] as int % 70 < 26)
      && (exists i :: 0 <= i < 12 && 52 <= bytes[i] as int % 70 < 62)
      && (exists i :: 0 <= i < 12 && bytes[i] as int % 70 >= 62)
  {
    var p := GenerateTempPassword(bytes);
    forall i | 0 <= i < 12
      ensures IsUpper(p[i]) <==> bytes[i] as int % 70 < 26
      ensures IsDigit(p[i]) <==> 52 <= bytes[i] as int % 70 < 62
      ensures IsSpecial(p[i]) <==> bytes[i] as int % 70 >= 62
    {
      var k := bytes[i] as int % 70;
      TempAlphabetClasses(k);
      if k < 62 {
        SpecialExcludesAlphanumerics(p[i]);
      } else {
        assert p[i] in Symbols;
        assert forall c :: c in Symbols ==> c in SpecialChars;
      }
    }
  }

  /** Twelve zero bytes give twelve `A`s, which the policy rejects. */
  lemma TempPasswordMayViolatePolicy(bytes: seq<byte>)
    requires |bytes| == 12 && forall i :: 0 <= i < 12 ==> bytes[i] == 0
    ensures forall i :: 0 <= i < 12 ==> GenerateTempPassword(bytes)[i] == 'A'
    ensures !IsPasswordValid(GenerateTempPassword(bytes))
  {
    var p := GenerateTempPassword(bytes);
    assert TempPasswordAlphabet[0] == 'A';
    forall i | 0 <= i < 12 ensures p[i] == 'A' && bytes[i] as int % 70 == 0 {
      assert bytes[i] as int % 70 == 0;
    }
    assert !exists i :: 0 <= i < 12 && bytes[i] as int % 70 >= 62;
    TempPasswordPolicy(bytes);
  }

  /** The `updateUserById` request: the new password and the metadata flag. */
  datatype CredentialUpdate = CredentialUpdate(userId: string, password: string, passwordChangeRequired: bool)

  datatype ResetRun = ResetRun(request: CredentialUpdate, outcome: Result<string>)

  /** `resetUserPassword`: the request always carries the fresh password and
      `password_change_required: true`; the password is handed back only when
      the update succeeds. */
  function ResetUserPassword(userId: string, bytes: seq<byte>, updateOk: bool): (run: ResetRun)
    requires |bytes| == 12
    ensures run.request.userId == userId && run.request.passwordChangeRequired
    ensures run.request.password == GenerateTempPassword(bytes)
    ensures run.outcome.Ok? <==> updateOk
    ensures run.outcome.Ok? ==> run.outcome.value == run.request.password
    ensures run.outcome.Err? ==> run.outcome.message == ResetFailedMessage
  {
    var temp := GenerateTempPassword(bytes);
    ResetRun(CredentialUpdate(userId, temp, true), if updateOk then Ok(temp) else Err(ResetFailedMessage))
  }

  /** The row of `get_dashboard_stats`; a field is `None` when null or absent. */
  datatype RawStats = RawStats(
    totalQuizzes: Option<real>,
    passRate: Option<real>,
    averageScore: Option<real>,
    averageTime: Option<real>)

  datatype Stats = Stats(totalQuizzes: real, passRate: real, averageScore: real, averageTime: real)

  /** `x || 0` on a number: a missing value (and `0` itself) gives `0`. */
  function OrZero(x: Option<real>): (r: real)
    ensures x.Some? ==> r == x.value
    ensures x.None? ==> r == 0.0
  {
    x.GetOr(0.0)
  }

  /** `getDashboardStats`, given the outcome of the RPC. */
  function GetDashboardStats(rpc: Result<RawStats>): (r: Result<Stats>)
    ensures r.Err? <==> rpc.Err?
    ensures r.Err? ==> r.message == StatsFailedPrefix + rpc.message
    ensures r.Ok? ==> r.value == Stats(OrZero(rpc.value.totalQuizzes), OrZero(rpc.value.passRate),
                                       OrZero(rpc.value.averageScore), OrZero(rpc.value.averageTime))
  {
    match rpc
    case Err(msg) => Err(StatsFailedPrefix + msg)
    case Ok(s) => Ok(Stats(OrZero(s.totalQuizzes), OrZero(s.passRate), OrZero(s.averageScore), OrZero(s.averageTime)))
  }

  /** An empty statistics row reads as all zeros, and a complete one is passed
      through unchanged. */
  lemma DashboardDefaults(t: real, p: real, s: real, m: real)
    ensures GetDashboardStats(Ok(RawStats(None, None, None, None))) == Ok(Stats(0.0, 0.0, 0.0, 0.0))
    ensures GetDashboardStats(Ok(RawStats(Some(t), Some(p), Some(s), Some(m)))) == Ok(Stats(t, p, s, m))
  {
  }
}
