/** Clients of the page, using only the handlers' contracts: what a caller can
    conclude from short sequences of form submissions, for any valid login and
    password. */
module Scenarios {
  import opened Users
  import opened Validation
  import opened App

  /** On empty storage, registering a valid pair stores exactly that record;
      registering the same pair again sends the user to the login form, where
      the pair logs in. */
  method RegisterTwiceThenLogin(login: string, password: string)
    returns (first: RegistrationOutcome, second: RegistrationOutcome, loggedIn: bool, users: seq<User>)
    requires ValidateLogin(login) == "" && ValidatePassword(password) == ""
    ensures first == Registered && second == AlreadyRegistered && loggedIn
    ensures users == [User(login, password)]
  {
    var page := new Page(map[], None, false, true);
    first := page.SubmitRegistration(login, password, true);
    assert page.GetUsers() == [User(login, password)];
    second := page.SubmitRegistration(login, password, false);
    loggedIn := page.SubmitLogin(login, password, true, "token");
    users := page.GetUsers();
  }

  /** A non-empty wrong password is refused and leaves the storage as it was. */
  method WrongPassword(login: string, stored: string, typed: string, storage: map<string, string>)
    returns (ok: bool, slots: map<string, string>)
    requires typed != "" && typed != stored && UsersKey !in storage
    ensures !ok && slots == storage
  {
    var page := new Page(storage, Some([User(login, stored)]), true, false);
    ok := page.SubmitLogin(login, typed, false, "token");
    slots := page.slots;
  }

  /** An empty password logs in any stored login, whatever its password. */
  method EmptyPassword(login: string, stored: string) returns (ok: bool, current: string)
    ensures ok && current == login
  {
    var page := new Page(map[], Some([User(login, stored)]), true, false);
    assert User(login, stored) in page.GetUsers();
    ok := page.SubmitLogin(login, "", false, "token");
    current := page.slots[CurrentUserKey];
  }

  /** Logging in with remember-me and then out drops every session slot but
      keeps the last registered login and the users. */
  method RememberThenLogout(login: string, password: string, last: string)
    returns (slots: map<string, string>, users: seq<User>)
    ensures slots == map[LastLoginKey := last]
    ensures users == [User(login, password)]
  {
    var page := new Page(map[LastLoginKey := last], Some([User(login, password)]), true, false);
    assert User(login, password) in page.GetUsers();
    var ok := page.SubmitLogin(login, password, true, "token");
    assert ok;
    page.Logout();
    slots := page.slots;
    users := page.GetUsers();
  }
}
