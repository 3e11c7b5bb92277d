/** The user table as `LoginView` and `RegisterView` use it: lookups by
    username, the account a registration creates, and the login check. */
module Accounts {
  import opened Common
  import opened Models
  import opened Serializers
  import opened Responses

  /** User ids and usernames are unique, as the user table's constraints
      guarantee. */
  predicate AccountsUnique(users: seq<Account>)
  {
    forall i, j :: 0 <= i < j < |users| ==> users[i].id != users[j].id && users[i].username != users[j].username
  }

  /** `get_object_or_none(User, pk=id)`: the row of an authenticated user. */
  function UserIndex(users: seq<Account>, id: UserId): Option<nat>
  {
    FindFirst(users, (a: Account) => a.id == id)
  }

  /** The ids of the user table. */
  function UserIds(users: seq<Account>): set<UserId>
  {
    set i | 0 <= i < |users| :: users[i].id
  }

  /** The lookup by id finds a row exactly for the ids of the table. */
  lemma UserIndexFindsIds(users: seq<Account>, id: UserId)
    ensures UserIndex(users, id).Some? <==> id in UserIds(users)
  {
    if id in UserIds(users) {
      var i :| 0 <= i < |users| && users[i].id == id;
      assert ((a: Account) => a.id == id)(users[i]);
    }
  }

  /** `get_object_or_none(User, username=username)`: an exact, case-sensitive
      match. */
  function UsernameIndex(users: seq<Account>, username: string): Option<nat>
  {
    FindFirst(users, (a: Account) => a.username == username)
  }

  /** The account `create_user` stores for a registration: username and
      e-mail lower-cased; the form's name is not stored. */
  function NewAccount(id: UserId, f: RegistrationForm, token: string): (a: Account)
    ensures a.id == id && a.token == token && a.password == f.password && a.firstName == ""
    ensures a.username == Lower(f.username) && a.email == Lower(f.email)
    ensures Lower(a.username) == a.username && |a.username| == |f.username|
    ensures Lower(a.email) == a.email
  {
    LowerIdempotent(f.username);
    LowerIdempotent(f.email);
    Account(id, Lower(f.username), Lower(f.email), "", f.password, token)
  }

  /** `LoginView.get`: validate the query, look the username up exactly as
      given, check the password, and answer with the account's token. */
  function Login(users: seq<Account>, f: LoginForm): (r: Response<string>)
    requires AccountsUnique(users)
    ensures LoginErrors(f) != {} ==> r == Invalid(LoginErrors(f))
    ensures LoginErrors(f) == {} ==>
      (r.Done? <==> exists i :: 0 <= i < |users| && users[i].username == f.username && users[i].password == f.password)
    ensures r.Done? ==> exists i :: 0 <= i < |users| && users[i].username == f.username && users[i].token == r.body
    ensures r.Done? || r.Invalid? || r == Rejected(WrongCredentials)
    ensures r.Invalid? ==> LoginErrors(f) != {}
  {
    if LoginErrors(f) != {} then Invalid(LoginErrors(f))
    else match UsernameIndex(users, f.username)
      case Some(i) =>
        if users[i].password == f.password then Done(users[i].token) else Rejected(WrongCredentials)
      case None => Rejected(WrongCredentials)
  }

  /** A user who registered can log in with the username lower-cased, and
      receives the token issued at registration. */
  lemma RegisteredUserCanLogIn(users: seq<Account>, f: RegistrationForm, formats: FormatChecks, id: UserId, token: string)
    requires AccountsUnique(users + [NewAccount(id, f, token)])
    requires RegistrationErrors(f, formats) == {}
    ensures Login(users + [NewAccount(id, f, token)], LoginForm(Lower(f.username), f.password)) == Done(token)
  {
    var all := users + [NewAccount(id, f, token)];
    RegisteredCredentialsPassLogin(f, formats);
    var i := UsernameIndex(all, Lower(f.username));
    assert all[|users|].username == Lower(f.username);
    assert i == Some(|users|);
  }

  /** Login does not lower-case: a user who registered with upper-case
      letters in the username cannot log in by typing it the same way. */
  lemma MixedCaseUsernameIsRejected(users: seq<Account>, f: RegistrationForm, id: UserId, token: string)
    requires AccountsUnique(users + [NewAccount(id, f, token)])
    requires UsernameIndex(users, f.username).None?
    requires f.username != Lower(f.username)
    requires LoginErrors(LoginForm(f.username, f.password)) == {}
    ensures Login(users + [NewAccount(id, f, token)], LoginForm(f.username, f.password)) == Rejected(WrongCredentials)
  {
    var all := users + [NewAccount(id, f, token)];
    assert forall j :: 0 <= j < |all| ==> all[j].username != f.username by {
      forall j | 0 <= j < |all| ensures all[j].username != f.username {
        if j < |users| { assert all[j] == users[j]; }
      }
    }
  }

  /** Once a username is registered, registering it again in any mix of
      case is refused. */
  lemma SecondRegistrationConflicts(users: seq<Account>, f: RegistrationForm, id: UserId, token: string, g: RegistrationForm)
    requires Lower(g.username) == Lower(f.username)
    ensures UsernameIndex(users + [NewAccount(id, f, token)], Lower(g.username)).Some?
  {
    assert (users + [NewAccount(id, f, token)])[|users|].username == Lower(g.username);
  }

  /** Changing an account's e-mail keeps every login answer as it was:
      username, password and token are untouched. */
  lemma {:induction false} EmailChangeKeepsLogin(users: seq<Account>, i: nat, email: string, f: LoginForm)
    requires AccountsUnique(users) && i < |users|
    ensures AccountsUnique(users[i := users[i].(email := email)])
    ensures Login(users[i := users[i].(email := email)], f) == Login(users, f)
  {
    var changed := users[i := users[i].(email := email)];
    assert forall j :: 0 <= j < |users| ==>
      changed[j].username == users[j].username && changed[j].password == users[j].password
      && changed[j].token == users[j].token && changed[j].id == users[j].id;
    var before := UsernameIndex(users, f.username);
    if before.Some? {
      assert ((a: Account) => a.username == f.username)(changed[before.value]);
    }
  }
}
