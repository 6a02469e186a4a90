/** `UserService` of app/user/user_service.py over its repository, with the
    `users` table as a map from e-mail address to user: a lookup is the
    `SELECT ... WHERE email = :email`, a save the `REPLACE INTO` keyed by
    the user's e-mail, a delete the `DELETE ... WHERE email = :email` of
    app/user/user_repository.py. */
module UserService {
  import opened Wrappers

  datatype User = User(username: string, email: string, password: string)

  /** The `users` table, keyed by e-mail. */
  type Store = map<string, User>

  /** Every row sits under its own e-mail address. */
  predicate Consistent(st: Store) {
    forall e :: e in st ==> st[e].email == e
  }

  const NotFound: string := "User not Found."
  const BadPassword: string := "Invalid ID/PW"
  const Exists: string := "User already Exists."

  /** The result of a service call and the table after it. */
  datatype Reply = Reply(result: Result<User, string>, store: Store)

  /** `save_user`: the user replaces whatever row had its e-mail. */
  function Save(st: Store, u: User): (t: Store)
    ensures u.email in t && t[u.email] == u
    ensures forall e :: e != u.email ==> (e in t <==> e in st) && (e in st ==> t[e] == st[e])
  {
    st[u.email := u]
  }

  /** `login`: an unknown e-mail fails before the password is looked at; a
      wrong password fails; otherwise the stored user. */
  function Login(st: Store, email: string, password: string): (r: Result<User, string>)
    ensures email !in st <==> r == Failure(NotFound)
    ensures r.Success? <==> email in st && st[email].password == password
    ensures r.Success? ==> r.value == st[email]
    ensures r.Failure? ==> r.error == NotFound || r.error == BadPassword
  {
    if email !in st then Failure(NotFound)
    else if st[email].password != password then Failure(BadPassword)
    else Success(st[email])
  }

  /** `register_user`: a taken e-mail fails and changes nothing; otherwise
      the user is stored and returned. */
  function Register(st: Store, u: User): (r: Reply)
    ensures u.email in st ==> r == Reply(Failure(Exists), st)
    ensures u.email !in st ==> r.result == Success(u) && r.store == st[u.email := u]
  {
    if u.email in st then Reply(Failure(Exists), st) else Reply(Success(u), Save(st, u))
  }

  /** `delete_user`: an unknown e-mail fails and changes nothing; otherwise
      exactly that row is removed and returned. */
  function Delete(st: Store, email: string): (r: Reply)
    ensures email !in st ==> r == Reply(Failure(NotFound), st)
    ensures email in st ==> r.result == Success(st[email])
    ensures email in st && Consistent(st) ==> r.store == st - {email}
  {
    if email !in st then Reply(Failure(NotFound), st)
    else
      var u := st[email];
      Reply(Success(u), st - {u.email})
  }

  /** `update_user_pwd`: an unknown e-mail fails and changes nothing;
      otherwise the stored user gets the new password and is saved again. */
  function UpdatePassword(st: Store, email: string, newPassword: string): (r: Reply)
    ensures email !in st ==> r == Reply(Failure(NotFound), st)
    ensures email in st ==> r.result == Success(st[email].(password := newPassword))
    ensures email in st && Consistent(st) ==> r.store == st[email := st[email].(password := newPassword)]
  {
    if email !in st then Reply(Failure(NotFound), st)
    else
      var u := st[email].(password := newPassword);
      Reply(Success(u), Save(st, u))
  }

  /** No service call files a row under another row's e-mail. */
  lemma ServiceKeepsConsistent(st: Store, u: User, email: string, pw: string)
    requires Consistent(st)
    ensures Consistent(Register(st, u).store)
    ensures Consistent(Delete(st, email).store)
    ensures Consistent(UpdatePassword(st, email, pw).store)
  {
  }

  /** A user just registered can log in with the password given. */
  lemma LoginAfterRegister(st: Store, u: User)
    requires Register(st, u).result.Success?
    ensures Login(Register(st, u).store, u.email, u.password) == Success(u)
  {
  }

  /** Registering and then deleting the same e-mail restores the table. */
  lemma DeleteUndoesRegister(st: Store, u: User)
    requires Consistent(st)
    requires Register(st, u).result.Success?
    ensures Delete(Register(st, u).store, u.email) == Reply(Success(u), st)
  {
    assert Register(st, u).store - {u.email} == st;
  }

  /** After a password change the new password logs in, the old one (when
      different) no longer does, and every other row is untouched. */
  lemma LoginAfterUpdate(st: Store, email: string, newPassword: string)
    requires Consistent(st) && email in st
    ensures
      var t := UpdatePassword(st, email, newPassword).store;
      && Login(t, email, newPassword).Success?
      && Login(t, email, newPassword).value.username == st[email].username
      && (st[email].password != newPassword ==> Login(t, email, st[email].password) == Failure(BadPassword))
      && forall e :: e != email ==> (e in t <==> e in st) && (e in st ==> t[e] == st[e])
  {
  }

  /** A deleted user can no longer log in, whatever the password. */
  lemma LoginAfterDelete(st: Store, email: string, pw: string)
    requires Consistent(st)
    ensures Login(Delete(st, email).store, email, pw) == Failure(NotFound)
  {
  }
}
