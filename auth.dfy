/**
 * The login / register screen: its start mode, the mode toggle and the submit handler, which
 * looks the user up or inserts one and sets the session.
 */
module Auth {
  import opened Wrappers
  import opened Text
  import opened UserStore
  import opened SessionStore

  const ModeRegister := "register"
  const LoginError := "Invalid email or password"
  const RegisterError := "Registration failed (email may already exist)"

  /**
   * The screen is in login mode unless the `mode` extra is exactly "register": a missing extra
   * and every other value open the login form.
   */
  function StartsInLogin(modeExtra: Option<string>): (isLogin: bool)
    ensures modeExtra.None? ==> isLogin
    ensures modeExtra.Some? && modeExtra.value != "register" ==> isLogin
    ensures modeExtra == Some("register") ==> !isLogin
  {
    modeExtra != Some(ModeRegister)
  }

  /** The login branch: the email trimmed, the password as typed, no lookup if either is blank. */
  function LoginAttempt(rows: seq<User>, email: string, password: string): (r: Option<User>)
    ensures IsBlank(email) || IsBlank(password) ==> r.None?
    ensures r.Some? ==> r.value in rows && r.value.email == Trim(email) && r.value.password == password
    ensures !IsBlank(email) && !IsBlank(password) ==>
      (r.None? <==> forall i :: 0 <= i < |rows| ==> !(rows[i].email == Trim(email) && rows[i].password == password))
  {
    var e := Trim(email);
    if IsBlank(e) || IsBlank(password) then None else Login(rows, e, password)
  }

  /** The register branch inserts only when the trimmed name and email and the password are all non-blank. */
  predicate RegisterFieldsFilled(name: string, email: string, password: string)
    ensures RegisterFieldsFilled(name, email, password) <==> !IsBlank(name) && !IsBlank(email) && !IsBlank(password)
  {
    !IsBlank(Trim(name)) && !IsBlank(Trim(email)) && !IsBlank(password)
  }

  /**
   * What one submit does to the user table (`rows0`, `last0` before, `rows1`, `last1` after) and
   * which user it yields: the login lookup, nothing for blank register fields, otherwise the
   * insert of the trimmed name and email under the next id, or nothing when the insert aborts.
   */
  predicate Attempted(isLogin: bool, name: string, email: string, password: string,
                      rows0: seq<User>, last0: int, emailUnique: bool,
                      result: Option<User>, rows1: seq<User>, last1: int)
  {
    if isLogin then
      result == LoginAttempt(rows0, email, password) && rows1 == rows0 && last1 == last0
    else if !RegisterFieldsFilled(name, email, password) then
      result.None? && rows1 == rows0 && last1 == last0
    else
      var u := User(0, Trim(name), Trim(email), password);
      && (result.None? <==> InsertConflicts(rows0, last0, emailUnique, u))
      && (result.None? ==> rows1 == rows0 && last1 == last0)
      && (result.Some? ==> result.value == u.(id := last0 + 1) && rows1 == rows0 + [result.value])
  }

  /**
   * A successful registration can log in straight away with the same email and password; under
   * a unique email index the login finds exactly the new user.
   */
  lemma RegisteredUserCanLogIn(name: string, email: string, password: string, rows0: seq<User>, last0: int,
                               emailUnique: bool, result: Option<User>, rows1: seq<User>, last1: int)
    requires Attempted(false, name, email, password, rows0, last0, emailUnique, result, rows1, last1)
    requires result.Some?
    ensures LoginAttempt(rows1, email, password).Some?
    ensures emailUnique ==> LoginAttempt(rows1, email, password) == result
  {
    var u := result.value;
    assert rows1[|rows0|] == u;
    if emailUnique {
      assert forall i :: 0 <= i < |rows0| ==> rows0[i].email != u.email;
      assert forall i :: 0 <= i < |rows1| && rows1[i].email == u.email ==> rows1[i] == u;
    }
  }

  /** The message shown after a failed submit. */
  function FailureMessage(isLogin: bool): string {
    if isLogin then LoginError else RegisterError
  }

  class AuthScreen {
    var isLogin: bool
    var name: string
    var email: string
    var password: string
    var error: Option<string>
    var loading: bool

    constructor (modeExtra: Option<string>)
      ensures isLogin == StartsInLogin(modeExtra)
      ensures name == email == password == "" && error == None && !loading
    {
      isLogin := StartsInLogin(modeExtra);
      name, email, password := "", "", "";
      error := None;
      loading := false;
    }

    /** The "Register" / "Log In" link: clears the error and the password, the name when leaving register mode. */
    method ToggleMode()
      modifies this
      ensures isLogin == !old(isLogin)
      ensures error == None && password == ""
      ensures name == if old(isLogin) then old(name) else ""
      ensures email == old(email) && loading == old(loading)
    {
      error := None;
      password := "";
      if !isLogin {
        name := "";
      }
      isLogin := !isLogin;
    }

    /**
     * The part of the submit handler that runs on the IO dispatcher: a lookup in login mode, an
     * insert in register mode, `null` (here `None`) for blank fields or a rejected insert.
     */
    method Attempt(users: UserDao) returns (result: Option<User>)
      requires users.Valid()
      modifies users
      ensures users.Valid()
      ensures Attempted(isLogin, name, email, password, old(users.rows), old(users.lastId), users.emailUnique,
                        result, users.rows, users.lastId)
    {
      var e := Trim(email);
      var p := password;
      if isLogin {
        result := if IsBlank(e) || IsBlank(p) then None else Login(users.rows, e, p);
      } else {
        var n := Trim(name);
        if IsBlank(n) || IsBlank(e) || IsBlank(p) {
          result := None;
        } else {
          var id := users.Insert(User(0, n, e, p));
          result := if id.Some? then Some(User(id.value, n, e, p)) else None;
        }
      }
    }

    /**
     * The submit button, run to completion (the IO and main-thread hops are sequential here).
     * Success sets the session to the user's id; failure shows the mode's message.
     */
    method Submit(users: UserDao, session: Session) returns (result: Option<User>)
      requires users.Valid()
      modifies this`error, this`loading, users, session
      ensures users.Valid() && !loading
      ensures Attempted(isLogin, name, email, password, old(users.rows), old(users.lastId), users.emailUnique,
                        result, users.rows, users.lastId)
      ensures result.Some? ==> session.UserId() == result.value.id && error == None
      ensures result.None? ==> session.slot == old(session.slot) && error == Some(FailureMessage(isLogin))
    {
      error := None;
      loading := true;
      result := Attempt(users);
      loading := false;
      if result.Some? {
        session.SetUser(result.value.id);
      } else {
        error := Some(FailureMessage(isLogin));
      }
    }
  }
}
