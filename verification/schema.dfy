/**
 * The ledger store: the three tables of the finance tracker (users,
 * accounts, transactions) as sequences of rows in insertion order, with the
 * next AUTOINCREMENT id of each table, and the outcome every operation
 * returns.
 */
module Schema {
  import opened Storage

  /** The `type` column: its CHECK constraint admits exactly these two values. */
  datatype Kind = Income | Expense

  datatype User = User(id: int, fullname: string, username: string, password: string)

  datatype Account = Account(id: int, userId: int, name: string, initialBalance: real)

  /**
   * A ledger row. `date` is what the `DATE` column holds for the submitted
   * text: the text itself, or a number when the text is a numeric literal.
   */
  datatype Txn = Txn(
    id: int,
    userId: int,
    date: Value,
    accountId: int,
    kind: Kind,
    amount: real,
    description: string)

  datatype Store = Store(
    users: seq<User>,
    accounts: seq<Account>,
    txns: seq<Txn>,
    nextUserId: int,
    nextAccountId: int,
    nextTxnId: int)

  /** The kinds of failure a request can report. */
  datatype Error =
    | MissingField          // a required form field is empty, or the amount is not positive
    | InvalidAmount         // the amount text does not parse as a number
    | UsernameTaken
    | InvalidSelection      // category/detail pair outside the account catalog
    | DuplicateAccount      // the user already has an account with that name
    | AccountNotFound       // no account with that id belongs to the user
    | AccountInUse(count: nat, name: string)
    | TypeRejected          // the CHECK constraint on the transaction type fails
    | UserNotFound          // the session's user row is missing
    | WrongPassword
    | PasswordMismatch      // new password and its confirmation differ
    | DanglingTransaction   // a transaction names an account its user does not have

  datatype Result<+T> = Ok(value: T) | Err(error: Error)

  /** A freshly created database: empty tables, AUTOINCREMENT starting at 1. */
  const Empty: Store := Store([], [], [], 1, 1, 1)

  /** Whether `uid` owns an account with id `aid`. */
  predicate Owns(accounts: seq<Account>, uid: int, aid: int)
  {
    exists k :: 0 <= k < |accounts| && accounts[k].id == aid && accounts[k].userId == uid
  }

  /** The stored text of a type. */
  function KindText(k: Kind): string
  {
    if k == Income then "income" else "expense"
  }

  /** Whether some row of `accts` has id `aid`. */
  predicate Listed(accts: seq<Account>, aid: int)
  {
    exists i :: 0 <= i < |accts| && accts[i].id == aid
  }

  predicate UsersValid(s: Store)
  {
    && (forall i :: 0 <= i < |s.users| ==> 1 <= s.users[i].id < s.nextUserId)
    && (forall i, j :: 0 <= i < j < |s.users| ==>
          s.users[i].id != s.users[j].id && s.users[i].username != s.users[j].username)
  }

  predicate DistinctIds(accts: seq<Account>)
  {
    forall i, j :: 0 <= i < j < |accts| ==> accts[i].id != accts[j].id
  }

  /** The PRIMARY KEY on `id` and the UNIQUE (user_id, name) constraint of the accounts table. */
  predicate AccountKeys(accts: seq<Account>)
  {
    && DistinctIds(accts)
    && (forall i, j :: 0 <= i < j < |accts| ==>
          accts[i].userId != accts[j].userId || accts[i].name != accts[j].name)
  }

  predicate AccountsValid(s: Store)
  {
    && (forall i :: 0 <= i < |s.accounts| ==> 1 <= s.accounts[i].id < s.nextAccountId)
    && AccountKeys(s.accounts)
  }

  predicate TxnsValid(s: Store)
  {
    && (forall i :: 0 <= i < |s.txns| ==> 1 <= s.txns[i].id < s.nextTxnId)
    && (forall i, j :: 0 <= i < j < |s.txns| ==> s.txns[i].id != s.txns[j].id)
    && (forall i :: 0 <= i < |s.txns| ==> s.txns[i].amount > 0.0)
    && (forall i :: 0 <= i < |s.txns| ==> Owns(s.accounts, s.txns[i].userId, s.txns[i].accountId))
  }

  /**
   * What the schema and the request handlers keep true of the store: ids are
   * unique and below the next AUTOINCREMENT value, usernames are unique,
   * account names are unique per user, amounts are positive, and every
   * transaction points at an account of its own user.
   */
  predicate Valid(s: Store)
  {
    && 1 <= s.nextUserId && 1 <= s.nextAccountId && 1 <= s.nextTxnId
    && UsersValid(s) && AccountsValid(s) && TxnsValid(s)
  }

  lemma EmptyValid()
    ensures Valid(Empty)
  {
  }
}
