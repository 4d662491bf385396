# Registration and login form — a Dafny model

The page keeps a small credential store in the browser's local storage.
It offers two forms:

- **Registration** validates a login and a password and appends a
  `{login, password}` record to the user list.
- **Login** searches the list, then writes session slots (`authToken`,
  `currentUser`) and the remember-me slots (`rememberMe`, `savedLogin`).

`logoutUser` removes the session and remember-me slots. Exactly one of the two
forms is shown at a time.

The model has four modules:

- `Validation` holds the two validators and what they are built from:
  JavaScript `trim` with its exact whitespace set, the login pattern
  `/^[A-Za-z0-9_-]+$/`, and `String.length` counted in UTF-16 code units.
  These are pure functions, with lemmas.
- `Users` holds the record list, `Array.prototype.some` (`Any`) and the
  search behind `userExists` (`Exists`). Lemmas cover the search after an
  append, the effect of an empty password, and the count of records per login.
- `App` holds the class `Page`. Its fields are the string storage slots
  (`slots`), the users slot (`usersSlot`, `None` while absent) and the `hidden`
  flags of the two forms. Its methods are `saveUser`, the two form switches,
  the two submit handlers and logout. Each method states its whole new state
  in terms of the old one. `GetUsers` and `UserExists` are the page's
  `getUsers`/`userExists` over the current storage.
- `Scenarios` holds callers of `Page` that use only the handlers' contracts.
  They call the registration handler twice, then the login and logout
  handlers, for any valid login and password.

Behaviour the proofs make explicit:

- `userExists` treats a falsy password (`null` or `""`) as "match the login
  only" (script.js:23-26). The login handler decides by `userExists` alone and
  passes the typed password unchanged (script.js:131), so an empty password
  logs in every stored login (`Users.EmptyPasswordSearchesLoginOnly`,
  `App.Page.SubmitLogin`, `Scenarios.EmptyPassword`).
- Registration looks only for the exact pair. A known login with a different
  password is appended as a second record for that login (script.js:104-110;
  `Users.KnownLoginAppendedTwice`, `App.RegistrationOfKnownLogin`).
  Registration does keep pairs distinct (`App.RegistrationKeepsPairsDistinct`).
- The password rule counts UTF-16 code units (script.js:40). Three characters
  outside the Basic Multilingual Plane therefore pass the six-character minimum
  (`Validation.ThreeAstralCharsPass`).
- The login pattern is tested against the untrimmed login (script.js:32-34). A
  login with surrounding spaces gets the character-set message, not the
  "required" one (`Validation.LoginExamples`).
- `getUsers` parses the users slot with `JSON.parse`, which throws on malformed
  data (script.js:12; see Left out).

## Model

| member | source | states |
|---|---|---|
| `Validation.TrimStart` | script.js:32 | the result is a suffix of the input; the part removed is all whitespace; the result does not start with whitespace |
| `Validation.TrimEnd` | script.js:32 | the result is a prefix of the input; the part removed is all whitespace; the result does not end with whitespace |
| `Validation.Trim` | script.js:32 | `trim()` returns the slice of the input that starts after the leading whitespace and ends before the trailing whitespace (both removed parts are whitespace), neither starts nor ends with whitespace, and is empty exactly when the input is all whitespace |
| `Validation.TrimEmptyIffBlank` | script.js:32 | `trim()` yields the empty string exactly when every character is JavaScript whitespace |
| `Validation.MatchesLoginPattern` | script.js:33-34 | the regex test succeeds iff the login is non-empty and every character is in `[A-Za-z0-9_-]` |
| `Validation.ValidateLogin` | script.js:31-36 | `""` iff the login is non-empty and all characters are in `[A-Za-z0-9_-]`; a blank login gets the "required" text; any other rejected login gets the character-set text |
| `Validation.LoginExamples` | script.js:31-36 | `user_01-x` passes; spaces and a tab are "required"; `" alice"` gets the character-set text because the pattern is tested before trimming |
| `Validation.Utf16Length` | script.js:40 | `length` is between the number of characters and twice that, and equals it exactly when no character lies outside the BMP |
| `Validation.ValidatePassword` | script.js:38-42 | `""` iff the length is at least 6; the empty password gets the "required" text; lengths 1 to 5 get the "too short" text |
| `Validation.PasswordLengthRule` | script.js:38-42 | six characters always pass; for BMP-only passwords, valid iff at least six characters; one or two characters are always too short |
| `Validation.ThreeAstralCharsPass` | script.js:40 | a three-character password of astral characters passes the six-unit minimum |
| `Users.Any` | script.js:24-26 | `some` is true iff some record passes the test |
| `Users.Exists` | script.js:21-28 | true iff some record has the login and, when the password is truthy, also that password; with `null` or `""`, the login alone decides |
| `Users.ExactSearch` | script.js:23-24 | with a non-empty password, the search succeeds iff the exact `(login, password)` record is stored |
| `Users.EmptyPasswordSearchesLoginOnly` | script.js:23-26 | the search with `""` equals the search without a password, and succeeds iff some record has the login |
| `Users.AppendThenExists` | script.js:15-28 | after appending a record, the search finds it by pair and by login, and still finds everything it found before |
| `Users.CountLoginAppend` | script.js:17 | pushing a record raises its login's record count by one and leaves every other login's count unchanged |
| `Users.CountLoginPositive` | script.js:26 | a login is found by the login-only search iff at least one record carries it |
| `Users.KnownLoginAppendedTwice` | script.js:104-110 | appending a record for a login already stored leaves at least two records for that login |
| `Users.AppendUnknownPair` | script.js:104-110 | appending a pair that the exact search did not find keeps all stored pairs distinct |
| `App.Page.GetUsers` | script.js:10-13 | an absent users slot reads as no users; otherwise the stored list is returned |
| `App.Page.UserExists` | script.js:21-28 | over the stored list: with a non-empty password, true iff the exact `(login, password)` record is stored; with `null` or `""`, true iff some record has the login |
| `App.Page.SaveUser` | script.js:10-19 | the list read back is the old list with `{login, password}` appended, so earlier records are unchanged; all other slots and the forms are unchanged |
| `App.Page.ShowRegistrationForm` | script.js:56-61 | afterwards the registration form is shown, the login form is hidden (exactly one visible), and storage is unchanged |
| `App.Page.ShowLoginForm` | script.js:63-68 | afterwards the login form is shown, the registration form is hidden (exactly one visible), and storage is unchanged |
| `App.RegistrationDecision` | script.js:97-110 | rejected iff either validator returns an error, and then it carries both texts; otherwise "already registered" iff the exact pair is stored, else "registered" |
| `App.RegistrationKeepsPairsDistinct` | script.js:103-110 | when registration appends, a list without repeated pairs stays without repeated pairs |
| `App.RegistrationOfKnownLogin` | script.js:103-110 | a stored login with a new valid password is registered, and afterwards has at least two records |
| `App.Page.SubmitRegistration` | script.js:89-120 | the outcome is the decision on the stored list; a rejection changes nothing; "already registered" changes no storage and shows the login form; "registered" appends exactly one record, sets `last_login` only when `saveData` is checked, and leaves the forms alone |
| `App.Page.SubmitLogin` | script.js:123-155 | success iff the exact pair is stored (non-empty password) or the login is stored (empty password); on success `authToken` and `currentUser` are set, and `rememberMe`/`savedLogin` are set to `'true'`/login or removed; on failure no slot changes; the users and the forms are never touched |
| `App.Page.Logout` | script.js:178-184 | removes `authToken`, `currentUser`, `rememberMe` and `savedLogin` and nothing else: `last_login`, the users and the forms stay |
| `Scenarios.RegisterTwiceThenLogin` | script.js:89-155 | on empty storage: register gives Registered, registering again gives AlreadyRegistered, the pair logs in, and exactly one record is stored |
| `Scenarios.WrongPassword` | script.js:131-154 | a non-empty password that is not stored fails the login and leaves every slot as it was |
| `Scenarios.EmptyPassword` | script.js:131-134 | an empty password logs in a stored login and sets `currentUser` to it |
| `Scenarios.RememberThenLogout` | script.js:137-139 | a remembered login followed by logout leaves only `last_login` in the string slots, and the users unchanged |

## Left out

- DOM output is not modelled: the field error texts written to the page, `clearErrors`, the form `reset`, and the
  copying of login and password into the login form after "already registered" (script.js:107-108). The
  registration handler returns its validator texts in `Rejected` instead.
- `showMessage`, its three-second auto-clear timer, and the delayed redirect to `messages.html` are not
  modelled. They are timers and navigation with no effect on storage.
- JSON serialisation of the users slot is not modelled. The slot holds the record list directly. Malformed
  JSON, and a slot set to the empty string by something other than this page, are not modelled. The page
  never writes either.
- The `authToken` value `'auth_' + Date.now()` depends on the clock. It is the `token` parameter of
  `SubmitLogin`.
- The `load` handler and `checkAutoLogin` only pre-fill inputs and checkboxes from `last_login`,
  `rememberMe` and `savedLogin`, then call `showRegistrationForm`. The pre-filling is not modelled.
  `ShowRegistrationForm` covers the call.
- index.html is not part of this model. The forms' initial `hidden` classes are constructor parameters.
- `logoutUser` ends by navigating to `index.html` (script.js:183). The navigation reloads the page, and
  the `load` handler then shows the registration form. That reload is not modelled: `Logout` describes the
  page state before it, so "the forms stay" holds only until the navigation.
- Dafny strings hold Unicode scalar values, so a JavaScript string with an unpaired surrogate has no
  counterpart in the model. `length` counts such a surrogate as one code unit, and it is neither
  whitespace nor a login character, so both validators would treat it like any other BMP character
  outside those sets.
- Storage shared between several open tabs, and exceptions thrown by `setItem` (quota), are not modelled.
- `Validation.IsWhitespace` lists the characters `trim` removes as of the current Unicode version (the Zs
  category). Later Unicode versions may change that set.
