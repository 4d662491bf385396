/** The page: its local storage (named string slots plus the slot that holds
    the user list), which of its two forms is hidden, and the handlers that
    change them — form switching, registration, login and logout. */
module App {
  import opened Users
  import opened Validation

  // Storage slot names.
  const UsersKey: string := "registration_users"
  const AuthTokenKey: string := "authToken"
  const CurrentUserKey: string := "currentUser"
  const RememberMeKey: string := "rememberMe"
  const SavedLoginKey: string := "savedLogin"
  const LastLoginKey: string := "last_login"

  /** What one submission of the registration form ends in. */
  datatype RegistrationOutcome =
    | Rejected(loginError: string, passwordError: string)  // field errors shown, nothing stored
    | AlreadyRegistered                                    // exact pair known: sent to the login form
    | Registered                                           // one record appended

  /** Which branch the registration handler takes on the stored list: both
      fields are validated (both errors are reported); with both valid, a
      stored exact pair means "already registered" and anything else — a new
      login, or a known login with another password — is registered. */
  function RegistrationDecision(users: seq<User>, login: string, password: string)
    : (r: RegistrationOutcome)
    ensures r.Rejected? <==> ValidateLogin(login) != "" || ValidatePassword(password) != ""
    ensures r.Rejected? ==> r.loginError == ValidateLogin(login) && r.passwordError == ValidatePassword(password)
    ensures r == AlreadyRegistered <==> !r.Rejected? && User(login, password) in users
    ensures r == Registered <==> !r.Rejected? && User(login, password) !in users
  {
    var loginError := ValidateLogin(login);
    var passwordError := ValidatePassword(password);
    if loginError != "" || passwordError != "" then Rejected(loginError, passwordError)
    else
      ExactSearch(users, login, password);
      if Exists(users, login, Some(password)) then AlreadyRegistered else Registered
  }

  /** Registration never stores a pair twice: a list without repeated pairs
      keeps that property when registration appends to it. */
  lemma RegistrationKeepsPairsDistinct(users: seq<User>, login: string, password: string)
    requires DistinctPairs(users)
    requires RegistrationDecision(users, login, password) == Registered
    ensures DistinctPairs(users + [User(login, password)])
  {
    ExactSearch(users, login, password);
    AppendUnknownPair(users, login, password);
  }

  /** Registration does not keep logins unique: a login that is already stored
      is registered again under any other valid password. */
  lemma RegistrationOfKnownLogin(users: seq<User>, login: string, password: string)
    requires Exists(users, login, None) && User(login, password) !in users
    requires ValidateLogin(login) == "" && ValidatePassword(password) == ""
    ensures RegistrationDecision(users, login, password) == Registered
    ensures CountLogin(users + [User(login, password)], login) >= 2
  {
    KnownLoginAppendedTwice(users, login, password);
  }

  class Page {
    /** Every storage slot other than the users slot. */
    var slots: map<string, string>
    /** The users slot; None while it is absent. */
    var usersSlot: Option<seq<User>>
    /** The `hidden` class of the registration form and of the login form. */
    var registrationHidden: bool
    var loginHidden: bool

    /** The users slot is kept apart from the string slots. */
    ghost predicate Valid()
      reads this
    {
      UsersKey !in slots
    }

    /** A page over the given storage, with the forms hidden as the markup has them. */
    constructor (storage: map<string, string>, users: Option<seq<User>>,
                 registrationHidden0: bool, loginHidden0: bool)
      requires UsersKey !in storage
      ensures Valid()
      ensures slots == storage && usersSlot == users
      ensures registrationHidden == registrationHidden0 && loginHidden == loginHidden0
    {
      slots := storage;
      usersSlot := users;
      registrationHidden := registrationHidden0;
      loginHidden := loginHidden0;
    }

    /** getUsers: the stored list, or no users when the slot is absent. */
    function GetUsers(): (r: seq<User>)
      reads this
      ensures usersSlot == None ==> r == []
      ensures usersSlot != None ==> r == usersSlot.value
    {
      match usersSlot
      case None => []
      case Some(users) => users
    }

    /** userExists over the stored list: with a non-empty password it looks
        for the exact pair; with none, or an empty one, for the login alone. */
    function UserExists(login: string, password: Option<string>): (r: bool)
      reads this
      ensures Truthy(password) ==> (r <==> User(login, password.value) in GetUsers())
      ensures !Truthy(password) ==> (r <==> exists u :: u in GetUsers() && u.login == login)
    {
      if Truthy(password) then
        ExactSearch(GetUsers(), login, password.value);
        Exists(GetUsers(), login, password)
      else
        EmptyPasswordSearchesLoginOnly(GetUsers(), login);
        Exists(GetUsers(), login, password)
    }

    /** Exactly one of the two forms is shown. */
    predicate OneFormVisible()
      reads this
    {
      registrationHidden != loginHidden
    }

    /** saveUser: read the whole list, push one record, write the list back.
        Earlier records are kept as they were. */
    method SaveUser(login: string, password: string)
      requires Valid()
      modifies this
      ensures Valid()
      ensures GetUsers() == old(GetUsers()) + [User(login, password)]
      ensures slots == old(slots)
      ensures registrationHidden == old(registrationHidden) && loginHidden == old(loginHidden)
    {
      var users := GetUsers();
      users := users + [User(login, password)];
      usersSlot := Some(users);
    }

    /** showRegistrationForm: show the registration form, hide the login form. */
    method ShowRegistrationForm()
      requires Valid()
      modifies this
      ensures Valid()
      ensures OneFormVisible() && !registrationHidden && loginHidden
      ensures slots == old(slots) && usersSlot == old(usersSlot)
    {
      registrationHidden := false;
      loginHidden := true;
    }

    /** showLoginForm: show the login form, hide the registration form. */
    method ShowLoginForm()
      requires Valid()
      modifies this
      ensures Valid()
      ensures OneFormVisible() && !loginHidden && registrationHidden
      ensures slots == old(slots) && usersSlot == old(usersSlot)
    {
      loginHidden := false;
      registrationHidden := true;
    }

    /** The registration form's submit handler: it takes the branch that
        RegistrationDecision names on the stored list and performs that
        branch's effects. A known
        exact pair shows the login form; a new pair is appended and, when asked
        to, the login is remembered for the next visit; a rejected submission
        changes nothing. */
    method SubmitRegistration(login: string, password: string, saveData: bool)
      returns (outcome: RegistrationOutcome)
      requires Valid()
      modifies this
      ensures Valid()
      ensures outcome == RegistrationDecision(old(GetUsers()), login, password)
      ensures outcome.Rejected? ==> unchanged(this)
      ensures outcome == AlreadyRegistered ==>
                OneFormVisible() && !loginHidden &&
                slots == old(slots) && usersSlot == old(usersSlot)
      ensures outcome == Registered ==>
                GetUsers() == old(GetUsers()) + [User(login, password)] &&
                slots == (if saveData then old(slots)[LastLoginKey := login] else old(slots)) &&
                registrationHidden == old(registrationHidden) && loginHidden == old(loginHidden)
    {
      outcome := RegistrationDecision(GetUsers(), login, password);
      match outcome
      case Rejected(_, _) =>
      case AlreadyRegistered =>
        ShowLoginForm();
      case Registered =>
        SaveUser(login, password);
        if saveData {
          slots := slots[LastLoginKey := login];
        }
    }

    /** The login form's submit handler. No format check: the userExists search
        alone decides. On success the session slots are written and the
        remember-me choice is stored or cleared; on failure nothing changes. */
    method SubmitLogin(login: string, password: string, rememberMe: bool, token: string)
      returns (ok: bool)
      requires Valid()
      modifies this
      ensures Valid()
      ensures password != "" ==> (ok <==> User(login, password) in old(GetUsers()))
      ensures password == "" ==> (ok <==> exists u :: u in old(GetUsers()) && u.login == login)
      ensures ok && rememberMe ==>
                slots == old(slots)[AuthTokenKey := token][CurrentUserKey := login]
                                   [RememberMeKey := "true"][SavedLoginKey := login]
      ensures ok && !rememberMe ==>
                slots == old(slots)[AuthTokenKey := token][CurrentUserKey := login]
                         - {RememberMeKey, SavedLoginKey}
      ensures !ok ==> slots == old(slots)
      ensures usersSlot == old(usersSlot)
      ensures registrationHidden == old(registrationHidden) && loginHidden == old(loginHidden)
    {
      if password != "" {
        ExactSearch(GetUsers(), login, password);
      } else {
        EmptyPasswordSearchesLoginOnly(GetUsers(), login);
      }
      ok := UserExists(login, Some(password));
      if ok {
        slots := slots[AuthTokenKey := token];
        slots := slots[CurrentUserKey := login];
        if rememberMe {
          slots := slots[RememberMeKey := "true"];
          slots := slots[SavedLoginKey := login];
        } else {
          slots := slots - {RememberMeKey};
          slots := slots - {SavedLoginKey};
        }
      }
    }

    /** logoutUser: drop the session slots; the users and the last registered
        login stay. */
    method Logout()
      requires Valid()
      modifies this
      ensures Valid()
      ensures slots == old(slots) - {AuthTokenKey, CurrentUserKey, RememberMeKey, SavedLoginKey}
      ensures usersSlot == old(usersSlot)
      ensures registrationHidden == old(registrationHidden) && loginHidden == old(loginHidden)
    {
      slots := slots - {AuthTokenKey};
      slots := slots - {CurrentUserKey};
      slots := slots - {RememberMeKey};
      slots := slots - {SavedLoginKey};
    }
  }
}
