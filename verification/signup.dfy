/**
 * The beta client's signup: a username scanned from the terminal and
 * checked, a password read twice without echo and checked, then the
 * registration request, whose status code decides the outcome.
 */
module Signup {
  import opened Wrappers
  import opened Text
  import opened Console

  datatype UsernameError = EmptyName | TooShort | HasSpace

  /** getUsername's checks: the trimmed name must be non-empty, at least 3 bytes long and without a space. */
  function CheckUsername(raw: string): (r: Result<string, UsernameError>)
    ensures r.Ok? ==> r.value == TrimSpace(raw) && Utf8Len(r.value) >= 3 && ' ' !in r.value
    ensures r == Err(EmptyName) <==> AllSpace(raw)
    ensures r == Err(TooShort) <==> !AllSpace(raw) && Utf8Len(TrimSpace(raw)) < 3
    ensures r == Err(HasSpace) <==> !AllSpace(raw) && Utf8Len(TrimSpace(raw)) >= 3 && ' ' in TrimSpace(raw)
    ensures !AllSpace(raw) && Utf8Len(TrimSpace(raw)) >= 3 && ' ' !in TrimSpace(raw) ==> r == Ok(TrimSpace(raw))
  {
    var name := TrimSpace(raw);
    if name == "" then Err(EmptyName)
    else if Utf8Len(name) < 3 then Err(TooShort)
    else if ' ' in name then Err(HasSpace)
    else Ok(name)
  }

  /** Every name without surrounding white space, of 3 bytes or more and without a space is accepted as it is. */
  lemma UsernameAccepted(name: string)
    requires name != [] ==> !IsSpace(name[0]) && !IsSpace(name[|name| - 1])
    requires Utf8Len(name) >= 3 && ' ' !in name
    ensures CheckUsername(name) == Ok(name)
  {
    TrimSpaceKeepsTrimmed(name);
  }

  /** A name without white space never fails the space check. */
  lemma NoSpaceNoSpaceError(name: string)
    requires forall i :: 0 <= i < |name| ==> !IsSpace(name[i])
    ensures CheckUsername(name) != Err(HasSpace)
  {
    if name != [] {
      TrimSpaceKeepsTrimmed(name);
      assert IsSpace(' ');
      assert ' ' !in name;
    }
  }

  /**
   * fmt.Scanln hands over one white-space-free field, so the space check
   * never fires on a scanned name.
   */
  lemma ScannedNameHasNoSpace(w: World)
    ensures CheckUsername(w.ScanToken().0) != Err(HasSpace)
  {
    NoSpaceNoSpaceError(w.ScanToken().0);
  }

  datatype PasswordError = Unreadable | EmptyPassword | TooShortPassword | ConfirmUnreadable | Mismatch

  /** getPassword's checks on the first entry: the trimmed password must be non-empty and at least 6 bytes long. */
  function CheckPassword(raw: string): (r: Result<string, PasswordError>)
    ensures r.Ok? ==> r.value == TrimSpace(raw) && Utf8Len(r.value) >= 6
    ensures r == Err(EmptyPassword) <==> AllSpace(raw)
    ensures r.Err? ==> r.error == EmptyPassword || r.error == TooShortPassword
    ensures !AllSpace(raw) && Utf8Len(TrimSpace(raw)) >= 6 ==> r == Ok(TrimSpace(raw))
  {
    var password := TrimSpace(raw);
    if password == "" then Err(EmptyPassword)
    else if Utf8Len(password) < 6 then Err(TooShortPassword)
    else Ok(password)
  }

  /**
   * getPassword: read and check the password, and only then read the
   * confirmation, which must trim to the same string.
   */
  function GetPassword(w: World): (res: (Result<string, PasswordError>, World))
    ensures res.1 == w.(stdin := res.1.stdin)
    ensures res.0.Ok? ==> Utf8Len(res.0.value) >= 6
  {
    var (first, w1) := w.ReadPassword();
    if first.None? then (Err(Unreadable), w1)
    else
      match CheckPassword(first.value)
      case Err(e) => (Err(e), w1)
      case Ok(password) =>
        var (second, w2) := w1.ReadPassword();
        if second.None? then (Err(ConfirmUnreadable), w2)
        else if TrimSpace(second.value) != password then (Err(Mismatch), w2)
        else (Ok(password), w2)
  }

  /** A password that fails its own checks is rejected after one read: the confirmation is never asked for. */
  lemma ConfirmationOnlyAfterChecks(w: World)
    ensures w.ReadPassword().0.None? ==> GetPassword(w) == (Err(Unreadable), w.ReadPassword().1)
    ensures w.ReadPassword().0.Some? && CheckPassword(w.ReadPassword().0.value).Err? ==>
      GetPassword(w) == (Err(CheckPassword(w.ReadPassword().0.value).error), w.ReadPassword().1)
  {
  }

  /** An accepted password is the trimmed first entry, at least 6 bytes long, and the trimmed confirmation equals it. */
  lemma PasswordConfirmed(w: World)
    requires GetPassword(w).0.Ok?
    ensures w.ReadPassword().0.Some? && w.ReadPassword().1.ReadPassword().0.Some?
    ensures GetPassword(w).0.value == TrimSpace(w.ReadPassword().0.value)
    ensures GetPassword(w).0.value == TrimSpace(w.ReadPassword().1.ReadPassword().0.value)
    ensures Utf8Len(GetPassword(w).0.value) >= 6
  {
  }

  /**
   * Conversely, a first entry that passes the checks, followed by a
   * confirmation that trims to the same string, is accepted as the trimmed
   * first entry.
   */
  lemma PasswordAccepted(w: World)
    requires w.ReadPassword().0.Some? && w.ReadPassword().1.ReadPassword().0.Some?
    requires CheckPassword(w.ReadPassword().0.value).Ok?
    requires TrimSpace(w.ReadPassword().1.ReadPassword().0.value) == TrimSpace(w.ReadPassword().0.value)
    ensures GetPassword(w).0 == Ok(TrimSpace(w.ReadPassword().0.value))
    ensures GetPassword(w).1 == w.ReadPassword().1.ReadPassword().1
  {
    var (first, w1) := w.ReadPassword();
    assert CheckPassword(first.value) == Ok(TrimSpace(first.value));
  }

  /** What registerUser makes of the reply. */
  datatype Registration = Created | BadRequest | Taken | ServerError | Unexpected(code: int) | NoResponse

  /** The status switch of registerUser: 200 and 201 succeed; 400, 409 and 500 are named; any other code is reported as it is. */
  function Outcome(r: Reply): (o: Registration)
    ensures o == Created <==> r.Response? && (r.status == 200 || r.status == 201)
    ensures o == NoResponse <==> r.Unreachable?
    ensures o.Unexpected? ==> r.Response? && o.code == r.status
  {
    if r.Unreachable? then NoResponse
    else if r.status == 200 || r.status == 201 then Created
    else if r.status == 400 then BadRequest
    else if r.status == 409 then Taken
    else if r.status == 500 then ServerError
    else Unexpected(r.status)
  }

  /**
   * Only the status decides, never the body; and two different codes give
   * different outcomes unless both are success codes.
   */
  lemma OutcomesDistinct(a: int, b: int, bodyA: Option<Payload>, bodyB: Option<Payload>)
    ensures Outcome(Response(a, bodyA)) == Outcome(Response(a, bodyB))
    ensures a != b && !((a == 200 || a == 201) && (b == 200 || b == 201)) ==>
      Outcome(Response(a, bodyA)) != Outcome(Response(b, bodyB))
  {
  }

  datatype SignupEnd = BadUsername(nameError: UsernameError) | BadPassword(passwordError: PasswordError) | Answered(outcome: Registration)

  /** The signup program: a rejected entry or a failed registration exits with status 1. */
  function SignUp(w: World): (res: (SignupEnd, World))
    ensures Grows(w, res.1)
  {
    var w1 := w.ScanToken().1;
    var name := CheckUsername(w.ScanToken().0);
    assert w1.trace == w.trace;
    if name.Err? then
      Did2(w, w1.Say(SignupFailed), w1.Say(SignupFailed).Exit(1), Say(SignupFailed), Exit(1));
      (BadUsername(name.error), w1.Say(SignupFailed).Exit(1))
    else
      var (password, w2) := GetPassword(w1);
      if password.Err? then
        Did2(w, w2.Say(SignupFailed), w2.Say(SignupFailed).Exit(1), Say(SignupFailed), Exit(1));
        (BadPassword(password.error), w2.Say(SignupFailed).Exit(1))
      else
        Same(w, w2);
        var res := RegisterUser(w2, name.value, password.value);
        SinceChain(w, w2, res.1);
        res
  }

  /** registerUser: show the password masked, send the request, report the outcome. */
  function RegisterUser(w: World, username: string, password: string): (res: (SignupEnd, World))
    ensures Grows(w, res.1)
    ensures res.0.Answered?
  {
    var w1 := w.Say(PasswordMask(Repeat('*', Utf8Len(password))));
    var (reply, w2) := w1.Call(Register(username, password));
    Did2(w, w1, w2, Say(PasswordMask(Repeat('*', Utf8Len(password)))), Call(Register(username, password)));
    if Outcome(reply) == Created then
      Did(w2, w2.Say(Registered), Say(Registered));
      SinceChain(w, w2, w2.Say(Registered));
      (Answered(Created), w2.Say(Registered))
    else
      Did2(w2, w2.Say(SignupFailed), w2.Say(SignupFailed).Exit(1), Say(SignupFailed), Exit(1));
      SinceChain(w, w2, w2.Say(SignupFailed).Exit(1));
      (Answered(Outcome(reply)), w2.Say(SignupFailed).Exit(1))
  }

  /** The name and password the registration is sent with, when both pass their checks. */
  function Credentials(w: World): (c: Option<(string, string)>)
    ensures c.Some? ==> CheckUsername(w.ScanToken().0) == Ok(c.value.0)
    ensures c.Some? ==> GetPassword(w.ScanToken().1).0 == Ok(c.value.1)
  {
    var name := CheckUsername(w.ScanToken().0);
    var password := GetPassword(w.ScanToken().1).0;
    if name.Ok? && password.Ok? then Some((name.value, password.value)) else None
  }

  /**
   * Registering first shows a mask of one '*' per byte of the password,
   * then makes the one call; it succeeds on 200 or 201 and otherwise exits
   * with status 1.
   */
  lemma RegisterUserFinished(w: World, username: string, password: string)
    ensures Finished(w, RegisterUser(w, username, password).1, RegisterUser(w, username, password).0 == Answered(Created),
      [Register(username, password)])
    ensures Since(w, RegisterUser(w, username, password).1)[0] == Say(PasswordMask(Repeat('*', Utf8Len(password))))
    ensures RegisterUser(w, username, password).0 == Answered(Outcome(NextReply(w)))
  {
    var mask := Say(PasswordMask(Repeat('*', Utf8Len(password))));
    var w1 := w.Say(PasswordMask(Repeat('*', Utf8Len(password))));
    var (reply, w2) := w1.Call(Register(username, password));
    assert reply == NextReply(w);
    Did(w, w1, mask);
    Single(mask);
    Called(w1, Register(username, password));
    SinceChain(w, w1, w2);
    if Outcome(reply) == Created {
      assert RegisterUser(w, username, password) == (Answered(Created), w2.Say(Registered));
      GoOnWith(w2, Registered);
      FinishedAfter(w, w2, w2.Say(Registered), true, [Register(username, password)], []);
      SinceChain(w, w2, w2.Say(Registered));
    } else {
      var r := w2.Say(SignupFailed).Exit(1);
      assert RegisterUser(w, username, password) == (Answered(Outcome(reply)), r);
      FailWith(w2, SignupFailed);
      FinishedAfter(w, w2, r, false, [Register(username, password)], []);
      SinceChain(w, w2, r);
    }
    assert [Register(username, password)] + [] == [Register(username, password)];
  }

  /**
   * The registration is sent exactly when the name and the password pass
   * their checks, with those two values; the program succeeds exactly when
   * the reply's status is 200 or 201, and otherwise ends with exit status 1,
   * its only exit.
   */
  lemma SignUpFinished(w: World)
    ensures Finished(w, SignUp(w).1, SignUp(w).0 == Answered(Created),
      if Credentials(w).Some? then [Register(Credentials(w).value.0, Credentials(w).value.1)] else [])
    ensures SignUp(w).0.Answered? <==> Credentials(w).Some?
  {
    var w1 := w.ScanToken().1;
    var name := CheckUsername(w.ScanToken().0);
    Same(w, w1);
    if name.Err? {
      var r := w1.Say(SignupFailed).Exit(1);
      assert SignUp(w) == (BadUsername(name.error), r);
      FailWith(w1, SignupFailed);
      FinishedAfter(w, w1, r, false, [], []);
    } else {
      var (password, w2) := GetPassword(w1);
      Same(w, w2);
      if password.Err? {
        var r := w2.Say(SignupFailed).Exit(1);
        assert SignUp(w) == (BadPassword(password.error), r);
        FailWith(w2, SignupFailed);
        FinishedAfter(w, w2, r, false, [], []);
      } else {
        var res := RegisterUser(w2, name.value, password.value);
        assert SignUp(w) == res;
        RegisterUserFinished(w2, name.value, password.value);
        FinishedAfter(w, w2, res.1, res.0 == Answered(Created), [], [Register(name.value, password.value)]);
        assert [] + [Register(name.value, password.value)] == [Register(name.value, password.value)];
      }
    }
  }

  /** A registration that is sent was preceded by the password's mask, one '*' per byte of the password. */
  lemma SignUpMasksThePassword(w: World)
    requires Credentials(w).Some?
    ensures Since(w, SignUp(w).1) != []
    ensures Since(w, SignUp(w).1)[0] == Say(PasswordMask(Repeat('*', Utf8Len(Credentials(w).value.1))))
    ensures Utf8Len(Credentials(w).value.1) >= 6
  {
    var w1 := w.ScanToken().1;
    var name := CheckUsername(w.ScanToken().0);
    var (password, w2) := GetPassword(w1);
    assert name.Ok? && password.Ok?;
    Same(w, w2);
    var res := RegisterUser(w2, name.value, password.value);
    assert SignUp(w) == res;
    RegisterUserFinished(w2, name.value, password.value);
    SinceChain(w, w2, res.1);
  }

  /** The signup program over the console. */
  method RunSignUp(con: Console) returns (e: SignupEnd)
    modifies con
    ensures (e, con.State()) == SignUp(old(con.State()))
  {
    var token := con.ScanToken();
    var name := CheckUsername(token);
    if name.Err? {
      con.Say(SignupFailed);
      con.Exit(1);
      return BadUsername(name.error);
    }
    var password := ReadNewPassword(con);
    if password.Err? {
      con.Say(SignupFailed);
      con.Exit(1);
      return BadPassword(password.error);
    }
    e := RunRegisterUser(con, name.value, password.value);
  }

  /** getPassword over the console. */
  method ReadNewPassword(con: Console) returns (r: Result<string, PasswordError>)
    modifies con
    ensures (r, con.State()) == GetPassword(old(con.State()))
  {
    var first := con.ReadPassword();
    if first.None? {
      return Err(Unreadable);
    }
    var checked := CheckPassword(first.value);
    if checked.Err? {
      return Err(checked.error);
    }
    var second := con.ReadPassword();
    if second.None? {
      return Err(ConfirmUnreadable);
    }
    if TrimSpace(second.value) != checked.value {
      return Err(Mismatch);
    }
    r := Ok(checked.value);
  }

  /** registerUser over the console. */
  method RunRegisterUser(con: Console, username: string, password: string) returns (e: SignupEnd)
    modifies con
    ensures (e, con.State()) == RegisterUser(old(con.State()), username, password)
  {
    con.Say(PasswordMask(Repeat('*', Utf8Len(password))));
    var reply := con.Call(Register(username, password));
    var outcome := Outcome(reply);
    if outcome == Created {
      con.Say(Registered);
    } else {
      con.Say(SignupFailed);
      con.Exit(1);
    }
    e := Answered(outcome);
  }
}
