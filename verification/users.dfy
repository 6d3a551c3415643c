/**
 * The user registry: registration, login by exact username and password,
 * and the three settings updates (full name, username, password).
 */
module Users {
  import opened Text
  import opened Schema

  /** Whether some user other than `uid` is called `username`. */
  predicate TakenByOther(users: seq<User>, username: string, uid: int)
  {
    exists k :: 0 <= k < |users| && users[k].username == username && users[k].id != uid
  }

  predicate UsernameUsed(users: seq<User>, username: string)
  {
    exists k :: 0 <= k < |users| && users[k].username == username
  }

  /**
   * Registration: every field must be non-empty and the username unused;
   * then one user row is appended and nothing else changes.
   */
  function Register(s: Store, fullname: string, username: string, password: string): (r: Result<Store>)
    ensures r == Err(MissingField) <==> fullname == [] || username == [] || password == []
    ensures fullname != [] && username != [] && password != [] ==>
              (r == Err(UsernameTaken) <==> UsernameUsed(s.users, username))
    ensures r.Ok? || r == Err(MissingField) || r == Err(UsernameTaken)
    ensures r.Ok? ==>
              && r.value.accounts == s.accounts && r.value.txns == s.txns
              && r.value.nextUserId == s.nextUserId + 1
              && r.value.nextAccountId == s.nextAccountId && r.value.nextTxnId == s.nextTxnId
              && r.value.users == s.users + [User(s.nextUserId, fullname, username, password)]
  {
    if fullname == [] || username == [] || password == [] then Err(MissingField)
    else if UsernameUsed(s.users, username) then Err(UsernameTaken)
    else
      Ok(s.(users := s.users + [User(s.nextUserId, fullname, username, password)],
            nextUserId := s.nextUserId + 1))
  }

  /** Login: the id of the first user whose username and password both match exactly. */
  function Login(users: seq<User>, username: string, password: string): (r: Option<int>)
    ensures r.Some? <==>
              exists k :: 0 <= k < |users| && users[k].username == username && users[k].password == password
    ensures r.Some? ==>
              exists k :: 0 <= k < |users| && users[k].id == r.value
                          && users[k].username == username && users[k].password == password
  {
    if users == [] then None
    else if users[0].username == username && users[0].password == password then Some(users[0].id)
    else
      assert forall i :: 1 <= i < |users| ==> users[i] == users[1..][i - 1];
      Login(users[1..], username, password)
  }

  /** The settings change applied to the session user's row. */
  datatype Change = NewFullname(fullname: string) | NewUsername(username: string) | NewPassword(password: string)

  function Apply(u: User, c: Change): User
  {
    match c
    case NewFullname(n) => u.(fullname := n)
    case NewUsername(n) => u.(username := n)
    case NewPassword(p) => u.(password := p)
  }

  /** A settings update: the rows with id `uid` change, the rest do not. */
  function UpdateUsers(users: seq<User>, uid: int, c: Change): (r: seq<User>)
    ensures |r| == |users|
    ensures forall i :: 0 <= i < |users| ==> r[i] == if users[i].id == uid then Apply(users[i], c) else users[i]
  {
    if users == [] then []
    else [if users[0].id == uid then Apply(users[0], c) else users[0]] + UpdateUsers(users[1..], uid, c)
  }

  /** Changing the full name: no check at all; only the user's own row changes. */
  function UpdateFullname(s: Store, uid: int, fullname: string): (r: Store)
    ensures r.accounts == s.accounts && r.txns == s.txns
    ensures r.nextUserId == s.nextUserId && r.nextAccountId == s.nextAccountId && r.nextTxnId == s.nextTxnId
    ensures |r.users| == |s.users|
    ensures forall i :: 0 <= i < |s.users| ==>
              && r.users[i].id == s.users[i].id
              && r.users[i].username == s.users[i].username
              && r.users[i].password == s.users[i].password
              && r.users[i].fullname == (if s.users[i].id == uid then fullname else s.users[i].fullname)
  {
    s.(users := UpdateUsers(s.users, uid, NewFullname(fullname)))
  }

  /**
   * Changing the username: refused when another user has that name (the user
   * may keep their own); otherwise only the user's own row changes.
   */
  function UpdateUsername(s: Store, uid: int, username: string): (r: Result<Store>)
    ensures r.Err? <==> TakenByOther(s.users, username, uid)
    ensures r.Err? ==> r.error == UsernameTaken
    ensures r.Ok? ==>
              && r.value.accounts == s.accounts && r.value.txns == s.txns
              && r.value.nextUserId == s.nextUserId && r.value.nextAccountId == s.nextAccountId
              && r.value.nextTxnId == s.nextTxnId
              && |r.value.users| == |s.users|
              && forall i :: 0 <= i < |s.users| ==>
                   && r.value.users[i].id == s.users[i].id
                   && r.value.users[i].fullname == s.users[i].fullname
                   && r.value.users[i].password == s.users[i].password
                   && r.value.users[i].username == (if s.users[i].id == uid then username else s.users[i].username)
  {
    if TakenByOther(s.users, username, uid) then Err(UsernameTaken)
    else Ok(s.(users := UpdateUsers(s.users, uid, NewUsername(username))))
  }

  /** The user row a lookup by id fetches: the first with that id. */
  function FindUser(users: seq<User>, uid: int): (r: Option<User>)
    ensures r.None? <==> forall k :: 0 <= k < |users| ==> users[k].id != uid
    ensures r.Some? ==> r.value.id == uid && r.value in users
  {
    if users == [] then None
    else if users[0].id == uid then Some(users[0])
    else
      assert forall i :: 1 <= i < |users| ==> users[i] == users[1..][i - 1];
      FindUser(users[1..], uid)
  }

  /**
   * Changing the password: the old password must match the stored one and
   * the new one must equal its confirmation; then only the user's own row
   * changes. A missing user row is a failure (the source dereferences it).
   */
  function UpdatePassword(s: Store, uid: int, oldPw: string, newPw: string, confirm: string): (r: Result<Store>)
    ensures FindUser(s.users, uid).None? ==> r == Err(UserNotFound)
    ensures FindUser(s.users, uid).Some? ==>
              (r == Err(WrongPassword) <==> oldPw != FindUser(s.users, uid).value.password)
    ensures FindUser(s.users, uid).Some? && oldPw == FindUser(s.users, uid).value.password ==>
              (r == Err(PasswordMismatch) <==> newPw != confirm)
    ensures r.Ok? ==>
              && r.value.accounts == s.accounts && r.value.txns == s.txns
              && r.value.nextUserId == s.nextUserId && r.value.nextAccountId == s.nextAccountId
              && r.value.nextTxnId == s.nextTxnId
              && |r.value.users| == |s.users|
              && forall i :: 0 <= i < |s.users| ==>
                   && r.value.users[i].id == s.users[i].id
                   && r.value.users[i].fullname == s.users[i].fullname
                   && r.value.users[i].username == s.users[i].username
                   && r.value.users[i].password == (if s.users[i].id == uid then newPw else s.users[i].password)
  {
    match FindUser(s.users, uid)
    case None => Err(UserNotFound)
    case Some(u) =>
      if oldPw != u.password then Err(WrongPassword)
      else if newPw != confirm then Err(PasswordMismatch)
      else Ok(s.(users := UpdateUsers(s.users, uid, NewPassword(newPw))))
  }

  /** Registration keeps the store consistent. */
  lemma RegisterKeepsValid(s: Store, fullname: string, username: string, password: string)
    requires Valid(s)
    requires Register(s, fullname, username, password).Ok?
    ensures Valid(Register(s, fullname, username, password).value)
  {
    var r := Register(s, fullname, username, password).value;
    assert forall i :: 0 <= i < |s.users| ==> r.users[i] == s.users[i];
  }

  /** A user who has just registered can log in with the same credentials, and gets the new id. */
  lemma LoginAfterRegister(s: Store, fullname: string, username: string, password: string)
    requires Valid(s)
    requires Register(s, fullname, username, password).Ok?
    ensures Login(Register(s, fullname, username, password).value.users, username, password) == Some(s.nextUserId)
  {
    var r := Register(s, fullname, username, password).value;
    RegisterKeepsValid(s, fullname, username, password);
    var n := |s.users|;
    assert r.users[n].username == username && r.users[n].password == password;
    var k :| 0 <= k < |r.users| && r.users[k].id == Login(r.users, username, password).value
             && r.users[k].username == username && r.users[k].password == password;
    assert k == n;
  }

  /** Renaming to the name one already has is always allowed in a consistent store. */
  lemma KeepOwnUsername(s: Store, uid: int, k: int)
    requires Valid(s)
    requires 0 <= k < |s.users| && s.users[k].id == uid
    ensures UpdateUsername(s, uid, s.users[k].username).Ok?
  {
    forall j | 0 <= j < |s.users| && s.users[j].username == s.users[k].username
      ensures s.users[j].id == uid
    {
      assert j == k;
    }
  }

  /** Updating one user's row keeps ids and usernames distinct, unless the new username is another user's. */
  lemma UpdateUsersDistinct(users: seq<User>, uid: int, c: Change)
    requires forall i, j :: 0 <= i < j < |users| ==> users[i].id != users[j].id && users[i].username != users[j].username
    requires c.NewUsername? ==> !TakenByOther(users, c.username, uid)
    ensures var r := UpdateUsers(users, uid, c);
            forall i, j :: 0 <= i < j < |r| ==> r[i].id != r[j].id && r[i].username != r[j].username
  {
    var r := UpdateUsers(users, uid, c);
    forall i, j | 0 <= i < j < |r|
      ensures r[i].id != r[j].id && r[i].username != r[j].username
    {
      assert users[i].id != users[j].id;
    }
  }

  /** A settings change keeps the store consistent, provided usernames stay distinct. */
  lemma UpdateKeepsValid(s: Store, uid: int, c: Change)
    requires Valid(s)
    requires c.NewUsername? ==> !TakenByOther(s.users, c.username, uid)
    ensures Valid(s.(users := UpdateUsers(s.users, uid, c)))
  {
    UpdateUsersDistinct(s.users, uid, c);
  }

  /** Within a registry of distinct usernames, the row called `name` is the only one with that name. */
  lemma {:induction false} SetPasswordLogin(users: seq<User>, uid: int, k: int, newPw: string, pw: string)
    requires forall i, j :: 0 <= i < j < |users| ==> users[i].id != users[j].id && users[i].username != users[j].username
    requires 0 <= k < |users| && users[k].id == uid
    ensures Login(UpdateUsers(users, uid, NewPassword(newPw)), users[k].username, pw) ==
              if pw == newPw then Some(uid) else None
  {
    var r := UpdateUsers(users, uid, NewPassword(newPw));
    forall m | 0 <= m < |r| && r[m].username == users[k].username
      ensures m == k && r[m].password == newPw
    {
      assert users[m].username == users[k].username;
    }
    if pw == newPw {
      var j :| 0 <= j < |r| && r[j].id == Login(r, users[k].username, pw).value
               && r[j].username == users[k].username && r[j].password == pw;
      assert j == k;
    }
  }

  /**
   * After a password change the user logs in with the new password, and no
   * longer with the old one when the two differ.
   */
  lemma LoginAfterPasswordChange(s: Store, uid: int, oldPw: string, newPw: string, confirm: string)
    requires UsersValid(s)
    requires UpdatePassword(s, uid, oldPw, newPw, confirm).Ok?
    ensures var r := UpdatePassword(s, uid, oldPw, newPw, confirm).value;
            var u := FindUser(s.users, uid).value;
            && Login(r.users, u.username, newPw) == Some(uid)
            && (oldPw != newPw ==> Login(r.users, u.username, oldPw).None?)
  {
    var u := FindUser(s.users, uid).value;
    var k :| 0 <= k < |s.users| && s.users[k] == u;
    assert oldPw == u.password && newPw == confirm;
    assert UpdatePassword(s, uid, oldPw, newPw, confirm) == Ok(s.(users := UpdateUsers(s.users, uid, NewPassword(newPw))));
    SetPasswordLogin(s.users, uid, k, newPw, newPw);
    SetPasswordLogin(s.users, uid, k, newPw, oldPw);
  }

  /** Login depends only on usernames and passwords, so changing a full name never changes who can log in. */
  lemma {:induction false} FullnameKeepsLogin(users: seq<User>, uid: int, fullname: string, username: string, password: string)
    ensures Login(UpdateUsers(users, uid, NewFullname(fullname)), username, password) == Login(users, username, password)
  {
    if users != [] {
      var r := UpdateUsers(users, uid, NewFullname(fullname));
      assert r[1..] == UpdateUsers(users[1..], uid, NewFullname(fullname));
      FullnameKeepsLogin(users[1..], uid, fullname, username, password);
    }
  }

  /** An accepted username change keeps the store consistent. */
  lemma UsernameKeepsValid(s: Store, uid: int, username: string)
    requires Valid(s)
    requires UpdateUsername(s, uid, username).Ok?
    ensures Valid(UpdateUsername(s, uid, username).value)
  {
    UpdateKeepsValid(s, uid, NewUsername(username));
  }

  /** An accepted password change keeps the store consistent. */
  lemma PasswordKeepsValid(s: Store, uid: int, oldPw: string, newPw: string, confirm: string)
    requires Valid(s)
    requires UpdatePassword(s, uid, oldPw, newPw, confirm).Ok?
    ensures Valid(UpdatePassword(s, uid, oldPw, newPw, confirm).value)
  {
    UpdateKeepsValid(s, uid, NewPassword(newPw));
  }
}
