/**
 * The login form (`LoginViewModel`): the e-mail lookup, the password check
 * through `PasswordHasher.VerifyPassword`, the activity check, and the role
 * switch that picks the window to open.  The employee and role tables and
 * the hash functions are parameters; a database failure is a parameter too.
 */
module Login {
  import opened Wrappers
  import opened Text
  import opened Calendar
  import opened Records
  import opened Listing
  import opened PasswordHasher
  import Register

  /** The two windows a login can open. */
  datatype Window = AdminWindow | ManagerWindow

  /** The result of a login: a window opens, or the form shows a message. */
  datatype LoginOutcome = Opened(window: Window) | Failed(message: string)

  /**
   * A database failure: the e-mail lookup throws, or the role query throws.
   * Both surface as "Ошибка подключения: " and the message.
   */
  datatype LoginFault = NoFault | LookupFault(message: string) | RoleQueryFault(message: string)

  function RoleKey(r: EmployeeRole): int
  {
    r.id
  }

  /** The window a lower-cased role name selects, if any. */
  function WindowFor(loweredName: string, adminLabel: string, managerLabel: string): (r: Option<Window>)
    ensures r == Some(AdminWindow) <==> loweredName == adminLabel
    ensures r == Some(ManagerWindow) <==> loweredName == managerLabel && loweredName != adminLabel
  {
    if loweredName == adminLabel then Some(AdminWindow)
    else if loweredName == managerLabel then Some(ManagerWindow)
    else None
  }

  /**
   * The switch of the role step as written, were its query to run: the role
   * whose id equals the user's own id, and a switch on capitalised labels.
   */
  function RoleDecision(roles: seq<EmployeeRole>, user: Employee): LoginOutcome
  {
    match FindByKey(roles, RoleKey, user.id)
    case None => Failed("Роль пользователя не определена.")
    case Some(role) =>
      match WindowFor(ToLower(role.name), "Администратор", "Менеджер")
      case Some(w) => Opened(w)
      case None => Failed("Недостаточно прав для доступа.")
  }

  /**
   * `LoginExecute` and `DetermineUserRoleAndOpenWindow` as written, as one
   * decision.  The role query's `.Include(ur => ur.Name)` names a plain
   * column, not a navigation, so the query layer refuses it before the query
   * runs, whatever the role table holds; `includeError` is the text of that
   * exception, which the catch block of `LoginExecute` shows.  The role
   * table is therefore never consulted.
   */
  function LoginDecision(c: Crypto, db: seq<Employee>, username: string, password: string,
                         fault: LoginFault, includeError: string): LoginOutcome
  {
    if username == "" || password == "" then Failed("Пожалуйста, введите имя пользователя и пароль.")
    else if fault.LookupFault? then Failed("Ошибка подключения: " + fault.message)
    else match FirstWithEmail(db, username)
      case None => Failed("Пользователь не найден.")
      case Some(user) =>
        if !VerifyPassword(c, password, user.passwordHash) then Failed("Неверный пароль.")
        else if !user.isActive then Failed("Учетная запись не активна.")
        else Failed("Ошибка подключения: " + includeError)
  }

  /**
   * As written every login that passes the password and activity checks
   * ends in the connection error of the refused `Include`; an unknown e-mail
   * is reported as such.
   */
  lemma IncludeAlwaysFails(c: Crypto, db: seq<Employee>, username: string, password: string,
                           fault: LoginFault, includeError: string)
    requires !fault.LookupFault? && username != "" && password != ""
    ensures LoginDecision(c, db, username, password, fault, includeError) == Failed("Ошибка подключения: " + includeError)
      <== FirstWithEmail(db, username).Some?
          && VerifyPassword(c, password, FirstWithEmail(db, username).value.passwordHash)
          && FirstWithEmail(db, username).value.isActive
    ensures FirstWithEmail(db, username).None? ==> LoginDecision(c, db, username, password, fault, includeError) == Failed("Пользователь не найден.")
  {
  }

  /** A lower-cased name never equals a label that starts with a capital letter. */
  lemma LoweredNeverCapitalised(name: string, caption: string)
    requires |caption| > 0 && IsUpperLetter(caption[0])
    ensures ToLower(name) != caption
  {
    if ToLower(name) == caption {
      ToLowerHasNoUpper(name, 0);
    }
  }

  /** As written the role switch never matches, so no role opens a window. */
  lemma RoleDecisionNeverOpens(roles: seq<EmployeeRole>, user: Employee)
    ensures RoleDecision(roles, user).Failed?
  {
    var role := FindByKey(roles, RoleKey, user.id);
    if role.Some? {
      LoweredNeverCapitalised(role.value.name, "Администратор");
      LoweredNeverCapitalised(role.value.name, "Менеджер");
    }
  }

  /** As written no login opens a window, whatever the tables hold. */
  lemma NoWindowEverOpens(c: Crypto, db: seq<Employee>, username: string, password: string,
                          fault: LoginFault, includeError: string)
    ensures LoginDecision(c, db, username, password, fault, includeError).Failed?
  {
  }

  /**
   * An account registered with the password "abcdefgh", which the form
   * accepts and stores as typed, is told "Неверный пароль." at login: the
   * stored text is shaped like a base64 hash and is checked as one.
   */
  lemma RegisteredUserRejected(c: Crypto, db: seq<Employee>, includeError: string,
                               firstName: string, lastName: string, email: string,
                               roleId: int, newId: int, now: Instant)
    requires Register.Registered(db, firstName, lastName, email, "abcdefgh", "abcdefgh", roleId, newId, now).Some?
    ensures LoginDecision(c, Register.Registered(db, firstName, lastName, email, "abcdefgh", "abcdefgh", roleId, newId, now).value,
                          email, "abcdefgh", NoFault, includeError)
            == Failed("Неверный пароль.")
  {
    var e := Register.NewAccount(firstName, lastName, email, "abcdefgh", roleId, newId, now);
    FirstWithEmailAppend(db, e, email);
    VerbatimPasswordRejected(c);
    ContainsAt(email, "@");
  }

  // ---------------------------------------------------------------------------
  // The login as evidently intended
  // ---------------------------------------------------------------------------

  /** The role step looking up the user's role id and comparing with lower-case labels. */
  function RoleDecisionFixed(roles: seq<EmployeeRole>, user: Employee): LoginOutcome
  {
    match FindByKey(roles, RoleKey, user.roleId)
    case None => Failed("Роль пользователя не определена.")
    case Some(role) =>
      match WindowFor(ToLower(role.name), "администратор", "менеджер")
      case Some(w) => Opened(w)
      case None => Failed("Недостаточно прав для доступа.")
  }

  /** The login with the corrected password check and role step. */
  function LoginDecisionFixed(c: Crypto, db: seq<Employee>, roles: seq<EmployeeRole>,
                              username: string, password: string, fault: LoginFault): LoginOutcome
  {
    if username == "" || password == "" then Failed("Пожалуйста, введите имя пользователя и пароль.")
    else if fault.LookupFault? then Failed("Ошибка подключения: " + fault.message)
    else match FirstWithEmail(db, username)
      case None => Failed("Пользователь не найден.")
      case Some(user) =>
        if !VerifyPasswordFixed(c, password, user.passwordHash) then Failed("Неверный пароль.")
        else if !user.isActive then Failed("Учетная запись не активна.")
        else if fault.RoleQueryFault? then Failed("Ошибка подключения: " + fault.message)
        else RoleDecisionFixed(roles, user)
  }

  /**
   * With the corrections the administrator window opens exactly for an
   * active account found by its e-mail, whose password verifies and whose
   * role, found by the role id, is named "Администратор" in any case.
   */
  lemma AdminOpensIff(c: Crypto, db: seq<Employee>, roles: seq<EmployeeRole>,
                      username: string, password: string)
    ensures LoginDecisionFixed(c, db, roles, username, password, NoFault) == Opened(AdminWindow)
      <==> username != "" && password != ""
           && FirstWithEmail(db, username).Some?
           && VerifyPasswordFixed(c, password, FirstWithEmail(db, username).value.passwordHash)
           && FirstWithEmail(db, username).value.isActive
           && FindByKey(roles, RoleKey, FirstWithEmail(db, username).value.roleId).Some?
           && ToLower(FindByKey(roles, RoleKey, FirstWithEmail(db, username).value.roleId).value.name)
              == "администратор"
  {
  }

  /**
   * With the corrections an account registered through the form, with a
   * password not shaped like a stored hash, passes the password check: the
   * login goes on to the role step for the new account.
   */
  lemma RegisteredUserAcceptedFixed(c: Crypto, db: seq<Employee>, roles: seq<EmployeeRole>,
                                    firstName: string, lastName: string, email: string, password: string,
                                    roleId: int, newId: int, now: Instant)
    requires Register.Registered(db, firstName, lastName, email, password, password, roleId, newId, now).Some?
    requires !IsAspNetIdentityHash(password) && !IsMd5Hash(password) && |password| != 44
    ensures LoginDecisionFixed(c, Register.Registered(db, firstName, lastName, email, password, password, roleId, newId, now).value,
                               roles, email, password, NoFault)
            == RoleDecisionFixed(roles, Register.NewAccount(firstName, lastName, email, password, roleId, newId, now))
  {
    var e := Register.NewAccount(firstName, lastName, email, password, roleId, newId, now);
    FirstWithEmailAppend(db, e, email);
    FixedPlainTextRoundTrip(c, password);
    ContainsAt(email, "@");
  }

  /** What the form shows after a decision: the message, or nothing when a window opens. */
  function MessageOf(d: LoginOutcome): (r: string)
    ensures d.Failed? ==> r == d.message
    ensures d.Opened? ==> r == ""
  {
    if d.Failed? then d.message else ""
  }

  class LoginForm {
    var username: string
    var password: string
    var errorMessage: string
    var isLoading: bool

    constructor()
      ensures username == "" && password == "" && errorMessage == "" && !isLoading
    {
      username, password, errorMessage := "", "", "";
      isLoading := false;
    }

    /**
     * `LoginExecute`, with the corrected password check and role step: the
     * window the decision opens, if any.  Without both fields the message is
     * set and nothing else changes; otherwise the busy flag ends cleared and
     * the message is the decision's (empty when a window opens).
     */
    method LoginExecute(c: Crypto, db: seq<Employee>, roles: seq<EmployeeRole>, fault: LoginFault)
      returns (shown: Option<Window>)
      modifies this`errorMessage, this`isLoading
      ensures var d := LoginDecisionFixed(c, db, roles, username, password, fault);
        (shown.Some? <==> d.Opened?) && (shown.Some? ==> shown.value == d.window)
        && errorMessage == MessageOf(d)
      ensures username == "" || password == "" ==> isLoading == old(isLoading)
      ensures username != "" && password != "" ==> !isLoading
    {
      if username == "" || password == "" {
        errorMessage := "Пожалуйста, введите имя пользователя и пароль.";
        return None;
      }
      isLoading := true;
      errorMessage := "";
      shown := None;
      if fault.LookupFault? {
        errorMessage := "Ошибка подключения: " + fault.message;
      } else {
        var user := FirstWithEmail(db, username);
        if user.None? {
          errorMessage := "Пользователь не найден.";
        } else if !VerifyPasswordFixed(c, password, user.value.passwordHash) {
          errorMessage := "Неверный пароль.";
        } else if !user.value.isActive {
          errorMessage := "Учетная запись не активна.";
        } else if fault.RoleQueryFault? {
          errorMessage := "Ошибка подключения: " + fault.message;
        } else {
          shown := DetermineUserRoleAndOpenWindow(roles, user.value);
        }
      }
      isLoading := false;
    }

    /**
     * `DetermineUserRoleAndOpenWindow`, looking the role up by the user's
     * role id and comparing with lower-case labels: the window it opens, or
     * its message.
     */
    method DetermineUserRoleAndOpenWindow(roles: seq<EmployeeRole>, user: Employee) returns (shown: Option<Window>)
      modifies this`errorMessage
      ensures (shown.Some? <==> RoleDecisionFixed(roles, user).Opened?)
      ensures shown.Some? ==> shown.value == RoleDecisionFixed(roles, user).window && errorMessage == old(errorMessage)
      ensures shown.None? ==> errorMessage == RoleDecisionFixed(roles, user).message
    {
      var role := FindByKey(roles, RoleKey, user.roleId);
      if role.None? {
        errorMessage := "Роль пользователя не определена.";
        return None;
      }
      var lowered := ToLower(role.value.name);
      if lowered == "администратор" {
        return Some(AdminWindow);
      } else if lowered == "менеджер" {
        return Some(ManagerWindow);
      }
      errorMessage := "Недостаточно прав для доступа.";
      return None;
    }
  }
}
