/**
 * The change-password screen's Save button: look up the session's user, check the current
 * password and the new one, then write the new password back.
 */
module PasswordChange {
  import opened Wrappers
  import opened Text
  import opened UserStore
  import opened SessionStore

  const FailureMessage := "Password change failed"

  /** How a press of Save ends: the screen closes, the check fails, or the coroutine throws. */
  datatype Outcome = Done | Rejected | Crashed

  /**
   * `ok`: the user exists, the current password matches exactly and the new one is not blank.
   * A blank new password or a missing user is rejected whatever else holds, and an accepted new
   * password keeps something once trimmed.
   */
  function CheckChange(found: Option<User>, current: string, newPass: string): (ok: bool)
    ensures IsBlank(newPass) || found.None? ==> !ok
    ensures found.Some? && found.value.password != current ==> !ok
    ensures ok <==> found.Some? && found.value.password == current && Trim(newPass) != []
  {
    found.Some? && found.value.password == current && !IsBlank(newPass)
  }

  /** Without a session the id is 0, which no stored user has, so every change is rejected. */
  lemma NoSessionNoChange(rows: seq<User>, lastId: int, current: string, newPass: string)
    requires WellFormed(rows, lastId)
    ensures !CheckChange(ById(rows, ReadUserId(None)), current, newPass)
  {
  }

  class ChangePasswordScreen {
    var current: string
    var newPass: string
    var msg: Option<string>

    constructor ()
      ensures current == newPass == "" && msg == None
    {
      current, newPass := "", "";
      msg := None;
    }

    /**
     * Save as the screen writes it: the new password goes through `insert`, whose ABORT rejects
     * the row because its id is already stored. The exception is not caught inside the coroutine,
     * so an accepted check always ends in `Crashed` and the password never changes.
     */
    method SaveAsWritten(users: UserDao, session: Session) returns (outcome: Outcome)
      requires users.Valid()
      modifies users, this`msg
      ensures users.Valid() && users.rows == old(users.rows) && users.lastId == old(users.lastId)
      ensures outcome != Done
      ensures outcome == Crashed <==> CheckChange(ById(old(users.rows), session.UserId()), current, newPass)
      ensures msg == if outcome == Rejected then Some(FailureMessage) else None
    {
      msg := None;
      var id := session.UserId();
      var u := ById(users.rows, id);
      if CheckChange(u, current, newPass) {
        var changed := u.value.(password := newPass);
        StoredUserConflicts(users.rows, users.lastId, users.emailUnique, id, changed);
        var r := users.Insert(changed);
        outcome := if r.Some? then Done else Crashed;
      } else {
        outcome := Rejected;
        msg := Some(FailureMessage);
      }
    }

    /**
     * Save as intended: the same check, then an UPDATE of the user's row. An accepted check always
     * closes the screen, with the new password stored and every other user untouched.
     */
    method Save(users: UserDao, session: Session) returns (outcome: Outcome)
      requires users.Valid()
      modifies users, this`msg
      ensures users.Valid() && users.lastId == old(users.lastId)
      ensures outcome != Crashed
      ensures outcome == Done <==> CheckChange(ById(old(users.rows), session.UserId()), current, newPass)
      ensures outcome == Done ==>
        ById(users.rows, session.UserId()) == Some(ById(old(users.rows), session.UserId()).value.(password := newPass))
      ensures outcome == Done ==>
        forall j :: j != session.UserId() ==> ById(users.rows, j) == ById(old(users.rows), j)
      ensures outcome == Rejected ==> users.rows == old(users.rows)
      ensures msg == if outcome == Rejected then Some(FailureMessage) else None
    {
      msg := None;
      var id := session.UserId();
      var u := ById(users.rows, id);
      if CheckChange(u, current, newPass) {
        var changed := u.value.(password := newPass);
        if users.emailUnique {
          OwnEmailNotHeldByOther(users.rows, id);
        }
        var ok := users.Update(changed);
        outcome := if ok then Done else Rejected;
        msg := if ok then None else Some(FailureMessage);
      } else {
        outcome := Rejected;
        msg := Some(FailureMessage);
      }
    }
  }
}
