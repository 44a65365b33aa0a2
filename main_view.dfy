/**
 * The start window (`MainViewModel`): it shows either the login or the
 * registration form, with a title, a footer and a switch caption to match,
 * and sends the Enter key to the form on show.
 */
module MainView {
  import opened Wrappers
  import opened Calendar
  import opened Records
  import opened PasswordHasher
  import Listing
  import Register
  import Login

  /** The title, footer and switch caption of each form. */
  datatype Captions = Captions(title: string, footer: string, switchText: string)

  function CaptionsOf(isLoginForm: bool): (r: Captions)
    ensures isLoginForm ==> r.switchText == "Зарегистрироваться"
    ensures !isLoginForm ==> r.switchText == "Войти"
  {
    if isLoginForm then Captions("Авторизация", "Нет аккаунта?", "Зарегистрироваться")
    else Captions("Регистрация", "Уже есть аккаунт?", "Войти")
  }

  class MainWindow {
    var isLoginForm: bool
    var title: string
    var footer: string
    var switchText: string
    var login: Login.LoginForm
    var register: Register.RegisterForm

    /** The captions shown belong to the form shown. */
    predicate CaptionsAgree()
      reads this
    {
      Captions(title, footer, switchText) == CaptionsOf(isLoginForm)
    }

    /** Both forms are created, the role list is loaded, and the login form is shown. */
    constructor(roles: Option<seq<EmployeeRole>>)
      ensures fresh(login) && fresh(register)
      ensures isLoginForm && CaptionsAgree()
      ensures login.username == "" && login.password == "" && login.errorMessage == "" && !login.isLoading
      ensures register.InputCleared() && register.errorMessage == "" && register.successMessage == ""
      ensures !register.isLoading
      ensures roles.Some? ==> register.availableRoles == Listing.Select(roles.value, Register.Offered)
      ensures roles.None? ==> register.availableRoles == Register.FallbackRoles()
    {
      login := new Login.LoginForm();
      register := new Register.RegisterForm(roles);
      new;
      ShowLoginForm();
    }

    /** `ShowLoginForm`: the registration form is cleared and the login form shown. */
    method ShowLoginForm()
      modifies this`isLoginForm, this`title, this`footer, this`switchText, register
      ensures isLoginForm && CaptionsAgree()
      ensures register.InputCleared() && register.errorMessage == "" && register.successMessage == ""
      ensures !register.isLoading && register.availableRoles == old(register.availableRoles)
      ensures login == old(login) && register == old(register)
    {
      register.ClearOnSwitch();
      title := "Авторизация";
      footer := "Нет аккаунта?";
      switchText := "Зарегистрироваться";
      isLoginForm := true;
    }

    /** `ShowRegisterForm`: the registration form shown; neither form's fields change. */
    method ShowRegisterForm()
      modifies this`isLoginForm, this`title, this`footer, this`switchText
      ensures !isLoginForm && CaptionsAgree()
    {
      title := "Регистрация";
      footer := "Уже есть аккаунт?";
      switchText := "Войти";
      isLoginForm := false;
    }

    /** `SwitchForm`: the other form is shown. */
    method SwitchForm()
      modifies this`isLoginForm, this`title, this`footer, this`switchText, register
      ensures isLoginForm == !old(isLoginForm) && CaptionsAgree()
      ensures old(isLoginForm) ==> unchanged(register)
      ensures !old(isLoginForm) ==> register.InputCleared() && register.errorMessage == "" && register.successMessage == ""
    {
      if isLoginForm {
        ShowRegisterForm();
      } else {
        ShowLoginForm();
      }
    }

    /**
     * `ExecuteEnterKey`: the login of the login form, or the registration of
     * the registration form; a registration that succeeds switches back to
     * the login form, which clears the registration form.
     */
    method ExecuteEnterKey(c: Crypto, db: seq<Employee>, roles: seq<EmployeeRole>,
                           loginFault: Login.LoginFault, registerFault: Register.DbFault, newId: int, now: Instant)
      returns (db': seq<Employee>, shown: Option<Login.Window>)
      requires CaptionsAgree()
      modifies this`isLoginForm, this`title, this`footer, this`switchText, login, register
      ensures CaptionsAgree()
      ensures old(isLoginForm) ==>
        var d := Login.LoginDecisionFixed(c, db, roles, login.username, login.password, loginFault);
        db' == db && isLoginForm && unchanged(register)
        && (shown.Some? <==> d.Opened?) && login.errorMessage == Login.MessageOf(d)
      ensures !old(isLoginForm) ==>
        var r := Register.Registered(db, old(register.firstName), old(register.lastName), old(register.email),
                                     old(register.password), old(register.confirmPassword),
                                     old(register.selectedRoleId), newId, now);
        shown.None? && unchanged(login)
        && (r.Some? && registerFault.NoFault? ==> db' == r.value && isLoginForm && register.InputCleared())
        && (r.None? || !registerFault.NoFault? ==> db' == db && !isLoginForm)
    {
      if isLoginForm {
        db' := db;
        shown := login.LoginExecute(c, db, roles, loginFault);
      } else {
        shown := None;
        var switchToLogin;
        db', switchToLogin := register.RegisterExecute(db, newId, now, registerFault);
        if switchToLogin {
          ShowLoginForm();
        }
      }
    }
  }
}
