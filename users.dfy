/** The registered users: an append-only list of (login, password) records,
    and the search the page runs over it to tell whether a user exists. */
module Users {

  datatype Option<+T> = None | Some(value: T)

  /** One stored record; the password is kept as plain text. */
  datatype User = User(login: string, password: string)

  /** JavaScript truthiness of the optional password argument: a missing
      argument (null) and the empty string are both falsy. */
  predicate Truthy(password: Option<string>) {
    password.Some? && password.value != ""
  }

  /** Array.prototype.some over the list: does any record pass `test`? */
  function Any(users: seq<User>, test: User -> bool): (r: bool)
    ensures r <==> exists i :: 0 <= i < |users| && test(users[i])
    decreases |users|
  {
    if users == [] then false
    else if test(users[0]) then true
    else
      var rest := Any(users[1..], test);
      assert forall i :: 1 <= i < |users| ==> users[i] == users[1..][i - 1];
      rest
  }

  /** The userExists search over a given list: with a truthy password, a record
      must carry both the login and the password; with a falsy one (null or
      ""), the login alone decides. */
  function Exists(users: seq<User>, login: string, password: Option<string>): (r: bool)
    ensures r <==> exists i :: 0 <= i < |users| && users[i].login == login &&
                                (Truthy(password) ==> users[i].password == password.value)
  {
    if Truthy(password) then
      var p := password.value;
      Any(users, (u: User) => u.login == login && u.password == p)
    else
      Any(users, (u: User) => u.login == login)
  }

  /** With a non-empty password the search is exact: it finds the pair. */
  lemma ExactSearch(users: seq<User>, login: string, password: string)
    requires password != ""
    ensures Exists(users, login, Some(password)) <==> User(login, password) in users
  {
    if User(login, password) in users {
      var i :| 0 <= i < |users| && users[i] == User(login, password);
    }
  }

  /** An empty password makes the search ignore passwords altogether: it
      succeeds for every login that has any record. */
  lemma EmptyPasswordSearchesLoginOnly(users: seq<User>, login: string)
    ensures Exists(users, login, Some("")) == Exists(users, login, None)
    ensures Exists(users, login, Some("")) <==> exists u :: u in users && u.login == login
  {
    if Exists(users, login, None) {
      var i :| 0 <= i < |users| && users[i].login == login;
      assert users[i] in users;
    }
  }

  /** After appending a record, the search finds it, both as a pair and by
      login alone, and still finds everything it found before. */
  lemma {:induction false} AppendThenExists(users: seq<User>, login: string, password: string,
                                            qLogin: string, qPassword: Option<string>)
    ensures Exists(users + [User(login, password)], login, Some(password))
    ensures Exists(users + [User(login, password)], login, None)
    ensures Exists(users, qLogin, qPassword) ==> Exists(users + [User(login, password)], qLogin, qPassword)
  {
    var after := users + [User(login, password)];
    assert after[|users|] == User(login, password);
    if Exists(users, qLogin, qPassword) {
      var i :| 0 <= i < |users| && users[i].login == qLogin &&
               (Truthy(qPassword) ==> users[i].password == qPassword.value);
      assert after[i] == users[i];
    }
  }

  /** The number of records that carry `login`. */
  function CountLogin(users: seq<User>, login: string): nat
    decreases |users|
  {
    if users == [] then 0
    else (if users[0].login == login then 1 else 0) + CountLogin(users[1..], login)
  }

  /** Appending one record adds one to its login's count and nothing to any other. */
  lemma {:induction false} CountLoginAppend(users: seq<User>, u: User, login: string)
    ensures CountLogin(users + [u], login) == CountLogin(users, login) + (if u.login == login then 1 else 0)
    decreases |users|
  {
    if users == [] {
      assert [u][1..] == [];
    } else {
      assert (users + [u])[1..] == users[1..] + [u];
      CountLoginAppend(users[1..], u, login);
    }
  }

  /** A login is known exactly when at least one record carries it. */
  lemma {:induction false} CountLoginPositive(users: seq<User>, login: string)
    ensures Exists(users, login, None) <==> CountLogin(users, login) > 0
    decreases |users|
  {
    if users != [] {
      CountLoginPositive(users[1..], login);
      if Exists(users[1..], login, None) {
        var i :| 0 <= i < |users[1..]| && users[1..][i].login == login;
        assert users[i + 1].login == login;
      }
      if Exists(users, login, None) && users[0].login != login {
        var i :| 0 <= i < |users| && users[i].login == login;
        assert users[1..][i - 1].login == login;
      }
    }
  }

  /** Appending a record for a login that is already known leaves that login
      with at least two records: nothing in the list keeps logins unique. */
  lemma KnownLoginAppendedTwice(users: seq<User>, login: string, password: string)
    requires Exists(users, login, None)
    ensures CountLogin(users + [User(login, password)], login) >= 2
  {
    CountLoginPositive(users, login);
    CountLoginAppend(users, User(login, password), login);
  }

  /** No (login, password) pair is stored twice. */
  predicate DistinctPairs(users: seq<User>) {
    forall i, j :: 0 <= i < j < |users| ==> users[i] != users[j]
  }

  /** Appending a pair the exact search did not find keeps pairs distinct. */
  lemma AppendUnknownPair(users: seq<User>, login: string, password: string)
    requires DistinctPairs(users)
    requires password != ""
    requires !Exists(users, login, Some(password))
    ensures DistinctPairs(users + [User(login, password)])
  {
    var after := users + [User(login, password)];
    forall i, j | 0 <= i < j < |after| ensures after[i] != after[j] {
      if j < |users| {
        assert after[i] == users[i] && after[j] == users[j];
      } else {
        assert after[i] == users[i];
      }
    }
  }
}
