/**
 * The registration form (`RegisterViewModel`): the role list it offers, its
 * input checks, and creating the account.  The database is the employee
 * table, handed in and handed back; a failure of the database is a parameter.
 */
module Register {
  import opened Wrappers
  import opened Text
  import opened Calendar
  import opened Records
  import opened Listing

  /** The role a new account gets unless another is chosen: 3. */
  const DefaultRoleId: int := 3

  /** The roles offered when the role table cannot be read. */
  function FallbackRoles(): (r: seq<EmployeeRole>)
    ensures |r| == 2 && r[0].id == 2 && r[1].id == DefaultRoleId
  {
    [EmployeeRole(2, "Менеджер"), EmployeeRole(3, "Программист")]
  }

  /** `Where(r => r.Id != 1)`: every role but the administrator's. */
  predicate Offered(r: EmployeeRole)
  {
    r.id != 1
  }

  /** The message `ValidateInput` sets for the first failing check, if any. */
  function ValidationError(firstName: string, lastName: string, email: string,
                           password: string, confirmPassword: string): Option<string>
  {
    if IsNullOrWhiteSpace(firstName) || IsNullOrWhiteSpace(lastName) then Some("Пожалуйста, введите имя и фамилию.")
    else if IsNullOrWhiteSpace(email) || !Contains(email, "@") then Some("Пожалуйста, введите корректный email.")
    else if IsNullOrWhiteSpace(password) || |password| < 6 then Some("Пароль должен содержать минимум 6 символов.")
    else if password != confirmPassword then Some("Пароли не совпадают.")
    else None
  }

  /**
   * The input is accepted exactly when both names are filled in, the e-mail
   * has an `@` somewhere, the password has at least six characters, not all
   * blank, and the confirmation repeats it.
   */
  lemma ValidationErrorIff(firstName: string, lastName: string, email: string,
                           password: string, confirmPassword: string)
    ensures ValidationError(firstName, lastName, email, password, confirmPassword).None? <==>
      !IsNullOrWhiteSpace(firstName) && !IsNullOrWhiteSpace(lastName)
      && (exists k :: OccursAt(email, "@", k))
      && !IsNullOrWhiteSpace(password) && |password| >= 6 && password == confirmPassword
  {
    ContainsAt(email, "@");
    if exists k :: OccursAt(email, "@", k) {
      var k :| OccursAt(email, "@", k);
      assert email[k] == '@' && !IsWhiteSpace(email[k]);
    }
  }

  /** The record the form creates. */
  function NewAccount(firstName: string, lastName: string, email: string, password: string,
                      roleId: int, newId: int, now: Instant): (e: Employee)
    ensures e.email == email && e.passwordHash == password && e.roleId == roleId
    ensures e.isActive && e.created == now && e.id == newId
  {
    Employee(newId, firstName, lastName, "", email, password, roleId, None, true, now)
  }

  /** The table after a registration that passes the checks and finds the e-mail unused; `None` otherwise. */
  function Registered(db: seq<Employee>, firstName: string, lastName: string, email: string,
                      password: string, confirmPassword: string, roleId: int, newId: int, now: Instant)
    : (r: Option<seq<Employee>>)
    ensures r.Some? <==> ValidationError(firstName, lastName, email, password, confirmPassword).None?
                         && FirstWithEmail(db, email).None?
    ensures r.Some? ==> r.value == db + [NewAccount(firstName, lastName, email, password, roleId, newId, now)]
  {
    if ValidationError(firstName, lastName, email, password, confirmPassword).Some? then None
    else if FirstWithEmail(db, email).Some? then None
    else Some(db + [NewAccount(firstName, lastName, email, password, roleId, newId, now)])
  }

  /** No two accounts share an e-mail. */
  predicate UniqueEmails(db: seq<Employee>)
  {
    forall i, j :: 0 <= i < j < |db| ==> db[i].email != db[j].email
  }

  /** Registration keeps e-mails unique, and the new account is the one its e-mail finds. */
  lemma RegisteredKeepsEmailsUnique(db: seq<Employee>, firstName: string, lastName: string, email: string,
                                    password: string, confirmPassword: string, roleId: int, newId: int, now: Instant)
    requires UniqueEmails(db)
    requires Registered(db, firstName, lastName, email, password, confirmPassword, roleId, newId, now).Some?
    ensures UniqueEmails(Registered(db, firstName, lastName, email, password, confirmPassword, roleId, newId, now).value)
    ensures FirstWithEmail(Registered(db, firstName, lastName, email, password, confirmPassword, roleId, newId, now).value, email)
            == Some(NewAccount(firstName, lastName, email, password, roleId, newId, now))
  {
    var e := NewAccount(firstName, lastName, email, password, roleId, newId, now);
    FirstWithEmailAppend(db, e, email);
  }

  /** What can go wrong in the database: the e-mail lookup or the save throws with a message. */
  datatype DbFault = NoFault | LookupFault(message: string) | SaveFault(message: string)

  class RegisterForm {
    var firstName: string
    var lastName: string
    var email: string
    var password: string
    var confirmPassword: string
    var errorMessage: string
    var successMessage: string
    var isLoading: bool
    var selectedRoleId: int
    var availableRoles: seq<EmployeeRole>

    /** The fields the form clears after a registration and on a switch of forms. */
    predicate InputCleared()
      reads this
    {
      firstName == "" && lastName == "" && email == "" && password == "" && confirmPassword == ""
      && selectedRoleId == DefaultRoleId
    }

    /** The constructor: empty fields, role 3, and the role list loaded (`None` when the query fails). */
    constructor(roles: Option<seq<EmployeeRole>>)
      ensures InputCleared() && errorMessage == "" && successMessage == "" && !isLoading
      ensures roles.Some? ==> availableRoles == Select(roles.value, Offered)
      ensures roles.None? ==> availableRoles == FallbackRoles()
    {
      firstName, lastName, email, password, confirmPassword := "", "", "", "", "";
      errorMessage, successMessage := "", "";
      isLoading := false;
      selectedRoleId := DefaultRoleId;
      availableRoles := if roles.Some? then Select(roles.value, Offered) else FallbackRoles();
    }

    /** `LoadAvailableRoles`: every role except the administrator's, or the two fallback roles. */
    method LoadAvailableRoles(roles: Option<seq<EmployeeRole>>)
      modifies this`availableRoles
      ensures roles.Some? ==> availableRoles == Select(roles.value, Offered)
      ensures roles.None? ==> availableRoles == FallbackRoles()
      ensures forall k :: 0 <= k < |availableRoles| ==> availableRoles[k].id != 1
    {
      if roles.Some? {
        availableRoles := Select(roles.value, Offered);
      } else {
        availableRoles := FallbackRoles();
      }
    }

    /** `ValidateInput`: on failure the message of the first failing check; on success nothing changes. */
    method ValidateInput() returns (ok: bool)
      modifies this`errorMessage
      ensures ok <==> ValidationError(firstName, lastName, email, password, confirmPassword).None?
      ensures ok ==> errorMessage == old(errorMessage)
      ensures !ok ==> errorMessage == ValidationError(firstName, lastName, email, password, confirmPassword).value
    {
      var error := ValidationError(firstName, lastName, email, password, confirmPassword);
      if error.Some? {
        errorMessage := error.value;
        return false;
      }
      return true;
    }

    /** `ClearForm`. */
    method ClearForm()
      modifies this`firstName, this`lastName, this`email, this`password, this`confirmPassword, this`selectedRoleId
      ensures InputCleared()
    {
      firstName, lastName, email, password, confirmPassword := "", "", "", "", "";
      selectedRoleId := DefaultRoleId;
    }

    /** `ClearOnSwitch`: the input, both messages and the busy flag reset. */
    method ClearOnSwitch()
      modifies this`firstName, this`lastName, this`email, this`password, this`confirmPassword, this`selectedRoleId
      modifies this`errorMessage, this`successMessage, this`isLoading
      ensures InputCleared() && errorMessage == "" && successMessage == "" && !isLoading
    {
      ClearForm();
      errorMessage := "";
      successMessage := "";
      isLoading := false;
    }

    /**
     * `RegisterExecute`: after the checks, look the e-mail up, refuse a
     * duplicate, otherwise store the account with the password as typed,
     * report success, clear the form and ask to switch to the login form.
     */
    method RegisterExecute(db: seq<Employee>, newId: int, now: Instant, fault: DbFault)
      returns (db': seq<Employee>, switchToLogin: bool)
      modifies this`firstName, this`lastName, this`email, this`password, this`confirmPassword, this`selectedRoleId
      modifies this`errorMessage, this`successMessage, this`isLoading
      ensures var invalid := ValidationError(old(firstName), old(lastName), old(email), old(password), old(confirmPassword));
        invalid.Some? ==>
          db' == db && !switchToLogin && errorMessage == invalid.value
          && successMessage == old(successMessage) && isLoading == old(isLoading)
      ensures !switchToLogin ==>
        firstName == old(firstName) && lastName == old(lastName) && email == old(email)
        && password == old(password) && confirmPassword == old(confirmPassword)
        && selectedRoleId == old(selectedRoleId)
      ensures var invalid := ValidationError(old(firstName), old(lastName), old(email), old(password), old(confirmPassword));
        invalid.None? ==>
          !isLoading && (
            if fault.LookupFault? then
              db' == db && !switchToLogin && errorMessage == "Ошибка регистрации: " + fault.message && successMessage == ""
            else if FirstWithEmail(db, old(email)).Some? then
              db' == db && !switchToLogin && errorMessage == "Пользователь с таким email уже существует."
              && successMessage == ""
            else if fault.SaveFault? then
              db' == db && !switchToLogin && errorMessage == "Ошибка регистрации: " + fault.message && successMessage == ""
            else
              Registered(db, old(firstName), old(lastName), old(email), old(password), old(confirmPassword),
                         old(selectedRoleId), newId, now) == Some(db')
              && switchToLogin && errorMessage == "" && successMessage == "Аккаунт успешно создан! Вы можете войти в систему."
              && InputCleared())
    {
      db' := db;
      switchToLogin := false;
      var ok := ValidateInput();
      if !ok {
        return;
      }
      isLoading := true;
      errorMessage := "";
      successMessage := "";
      if fault.LookupFault? {
        errorMessage := "Ошибка регистрации: " + fault.message;
      } else if FirstWithEmail(db, email).Some? {
        errorMessage := "Пользователь с таким email уже существует.";
      } else if fault.SaveFault? {
        errorMessage := "Ошибка регистрации: " + fault.message;
      } else {
        db' := db + [NewAccount(firstName, lastName, email, password, selectedRoleId, newId, now)];
        successMessage := "Аккаунт успешно создан! Вы можете войти в систему.";
        ClearForm();
        switchToLogin := true;
      }
      isLoading := false;
    }
  }
}
