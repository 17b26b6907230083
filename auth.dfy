/**
 * The read-only parts of authentication: the login decision, the account
 * code a registration receives, the account a registration inserts, and the
 * messages of the flows. Password hashing is the caller's: a login takes the
 * hash check as a parameter, and a registration or reset takes the new hash.
 */
module Auth {
  import opened Common
  import opened Entities

  const InvalidCredentials: string := "Invalid email or password"
  const AccountNotActive: string := "Account is not active. Please verify your email first."
  const LoginSucceeded: string := "Login successful"

  /**
   * `LoginAsync`: the account found by email must be ACTIVE and the password
   * must match its hash. `passwordMatches` stands for the hash check.
   */
  function Login(us: seq<User>, email: string, password: string, passwordMatches: (string, string) -> bool): (r: Outcome)
    ensures r.Success? <==>
      UserByEmail(us, email).Some? && us[UserByEmail(us, email).value].status == UserActive &&
      passwordMatches(password, us[UserByEmail(us, email).value].passwordHash)
    ensures r.Success? ==> r.message == LoginSucceeded
    ensures r.Failure? ==> r.message == InvalidCredentials || r.message == AccountNotActive
    ensures UserByEmail(us, email).Some? && us[UserByEmail(us, email).value].status != UserActive ==>
      r == Failure(AccountNotActive)
  {
    match UserByEmail(us, email)
    case None => Failure(InvalidCredentials)
    case Some(i) =>
      if us[i].status != UserActive then Failure(AccountNotActive)
      else if !passwordMatches(password, us[i].passwordHash) then Failure(InvalidCredentials)
      else Success(LoginSucceeded)
  }

  /** An unknown email and a wrong password for an ACTIVE account give the same answer. */
  lemma LoginHidesUnknownEmail(us: seq<User>, email: string, other: string, password: string,
                               passwordMatches: (string, string) -> bool)
    requires UserByEmail(us, email).None?
    requires UserByEmail(us, other).Some? && us[UserByEmail(us, other).value].status == UserActive
    requires !passwordMatches(password, us[UserByEmail(us, other).value].passwordHash)
    ensures Login(us, email, password, passwordMatches) == Login(us, other, password, passwordMatches)
  {
  }

  /**
   * `GenerateUserCode`: "FPT" followed by the decimal clock ticks from the
   * ninth digit on. `Substring(8)` throws on a shorter rendering, hence the
   * precondition.
   */
  function UserCodeFromTicks(ticks: nat): (code: string)
    requires |NatToString(ticks)| >= 8
    ensures |code| == 3 + |NatToString(ticks)| - 8 && code[..3] == "FPT"
    ensures forall i :: 3 <= i < |code| ==> IsDigit(code[i])
  {
    "FPT" + NatToString(ticks)[8..]
  }

  /** The account a registration inserts: INACTIVE, role 3, no department, with the caller's hash and code. */
  function NewStudent(us: seq<User>, email: string, fullName: string, phone: string, passwordHash: string,
                      userCode: string, now: int): (u: User)
    ensures u.email == email && u.passwordHash == passwordHash && u.code == userCode
    ensures u.status == UserInactive && u.roleId == 3 && u.createdAt == now
    ensures forall v :: v in us ==> v.id < u.id
  {
    User(NextUserId(us), userCode, fullName, email, phone, passwordHash, UserInactive, StudentRoleId, None, now)
  }

  /** `EmailExistsAsync`. */
  predicate EmailExists(us: seq<User>, email: string) {
    exists k :: 0 <= k < |us| && us[k].email == email
  }

  lemma EmailExistsIffFound(us: seq<User>, email: string)
    ensures EmailExists(us, email) <==> UserByEmail(us, email).Some?
  {
    if UserByEmail(us, email).Some? {
      assert us[UserByEmail(us, email).value].email == email;
    }
  }
}
