/**
 * The balance engine behind the dashboard: each account's current balance
 * is its initial balance plus the user's income rows on it minus the
 * expense rows, the total is the sum of those balances, and three expense
 * aggregates (lifetime, today, and the window from seven days before today
 * up to today) are read from the ledger.
 */
module Dashboard {
  import opened Text
  import opened Schema
  import opened Aggregate

  /** The account rows of user `uid`, in table order. */
  function AccountsOf(accounts: seq<Account>, uid: int): (r: seq<Account>)
    ensures forall a :: a in r <==> a in accounts && a.userId == uid
    ensures DistinctIds(accounts) ==> DistinctIds(r)
  {
    if accounts == [] then []
    else
      var rest := AccountsOf(accounts[1..], uid);
      assert forall a :: a in accounts[1..] ==> a in accounts;
      assert forall a :: a in accounts ==> a == accounts[0] || a in accounts[1..];
      if accounts[0].userId == uid then
        assert DistinctIds(accounts) ==> forall a :: a in accounts[1..] ==> a.id != accounts[0].id;
        [accounts[0]] + rest
      else rest
  }

  /** The current balance of an account, from its stored rows alone. */
  function Balance(s: Store, a: Account): real
  {
    a.initialBalance
    + Sum(s.txns, Query(a.userId, Income, Some(a.id), AnyDate))
    - Sum(s.txns, Query(a.userId, Expense, Some(a.id), AnyDate))
  }

  /** The map from each listed account id to its initial balance; when an id repeats, the later row wins. */
  function Opening(accts: seq<Account>): (m: map<int, real>)
    ensures forall k :: k in m <==> Listed(accts, k)
    ensures DistinctIds(accts) ==>
              forall i :: 0 <= i < |accts| ==> accts[i].id in m && m[accts[i].id] == accts[i].initialBalance
  {
    if accts == [] then map[]
    else
      var init := accts[..|accts| - 1];
      var last := accts[|accts| - 1];
      assert forall i :: 0 <= i < |init| ==> init[i] == accts[i];
      Opening(init)[last.id := last.initialBalance]
  }

  /**
   * The dashboard's loop over the user's rows: income adds to the balance of
   * the row's account and expense subtracts from it. A row whose account is
   * not among the keys raises a KeyError in the source, modelled as None.
   */
  function Post(bal: map<int, real>, ts: seq<Txn>): (r: Option<map<int, real>>)
    ensures r.Some? <==> forall i :: 0 <= i < |ts| ==> ts[i].accountId in bal
    ensures r.Some? ==> r.value.Keys == bal.Keys
  {
    if ts == [] then Some(bal)
    else if ts[0].accountId !in bal then None
    else
      assert forall i :: 1 <= i < |ts| ==> ts[i] == ts[1..][i - 1];
      Post(Step(bal, ts[0]), ts[1..])
  }

  /**
   * Over the rows of user `uid`, the loop leaves each entry at its start
   * plus the income and minus the expenses recorded on that account.
   */
  lemma {:induction false} PostEntries(bal: map<int, real>, ts: seq<Txn>, uid: int, k: int)
    requires forall i :: 0 <= i < |ts| ==> ts[i].userId == uid
    requires Post(bal, ts).Some? && k in bal
    ensures k in Post(bal, ts).value
    ensures Post(bal, ts).value[k] == bal[k]
                                      + Sum(ts, Query(uid, Income, Some(k), AnyDate))
                                      - Sum(ts, Query(uid, Expense, Some(k), AnyDate))
  {
    if ts != [] {
      assert forall i :: 1 <= i < |ts| ==> ts[i] == ts[1..][i - 1];
      PostEntries(Step(bal, ts[0]), ts[1..], uid, k);
      StepEntry(bal, ts[0], uid, k);
    }
  }

  /** One pass of the loop body: the row's amount is added to (income) or taken from (expense) its account. */
  function Step(bal: map<int, real>, t: Txn): (r: map<int, real>)
    requires t.accountId in bal
    ensures r.Keys == bal.Keys
  {
    bal[t.accountId := bal[t.accountId] + (if t.kind == Income then t.amount else -t.amount)]
  }

  /** After one pass, each entry has moved by the row's income and expense contributions to that account. */
  lemma StepEntry(bal: map<int, real>, t: Txn, uid: int, k: int)
    requires t.accountId in bal && k in bal
    requires t.userId == uid
    ensures Step(bal, t)[k] == bal[k]
                               + Contribution(Query(uid, Income, Some(k), AnyDate), t)
                               - Contribution(Query(uid, Expense, Some(k), AnyDate), t)
  {
  }

  /** The sum of the map's entries, taking one entry per account row. */
  function Total(accts: seq<Account>, m: map<int, real>): (r: real)
    requires forall i :: 0 <= i < |accts| ==> accts[i].id in m
    ensures accts == [] ==> r == 0.0
    ensures (forall i :: 0 <= i < |accts| ==> m[accts[i].id] >= 0.0) ==> r >= 0.0
    ensures (forall i :: 0 <= i < |accts| ==> m[accts[i].id] == 0.0) ==> r == 0.0
  {
    if accts == [] then 0.0
    else
      assert forall i :: 1 <= i < |accts| ==> accts[i] == accts[1..][i - 1];
      m[accts[0].id] + Total(accts[1..], m)
  }

  /** What the dashboard shows. */
  datatype View = View(
    balances: map<int, real>,
    total: real,
    totalExpense: real,
    expenseToday: real,
    expenseWindow: real)

  /**
   * The date filter of the window aggregate: from the text of the day seven
   * days before today up to the text of today, both included. `fmt` spells
   * a day number as a date text.
   */
  function WindowFilter(fmt: int -> string, today: int): DateFilter
  {
    Between(fmt(today - 7), fmt(today))
  }

  function LifetimeQuery(uid: int): Query
  {
    Query(uid, Expense, None, AnyDate)
  }

  function TodayQuery(uid: int, fmt: int -> string, today: int): Query
  {
    Query(uid, Expense, None, OnDate(fmt(today)))
  }

  function WindowQuery(uid: int, fmt: int -> string, today: int): Query
  {
    Query(uid, Expense, None, WindowFilter(fmt, today))
  }

  lemma OwnsInAccountsOf(s: Store, uid: int, aid: int)
    ensures Owns(s.accounts, uid, aid) <==> Listed(AccountsOf(s.accounts, uid), aid)
  {
    var accts := AccountsOf(s.accounts, uid);
    if Owns(s.accounts, uid, aid) {
      var k :| 0 <= k < |s.accounts| && s.accounts[k].id == aid && s.accounts[k].userId == uid;
      assert s.accounts[k] in accts;
      var i :| 0 <= i < |accts| && accts[i] == s.accounts[k];
      assert accts[i].id == aid;
    }
    if exists i :: 0 <= i < |accts| && accts[i].id == aid {
      var i :| 0 <= i < |accts| && accts[i].id == aid;
      assert accts[i] in s.accounts && accts[i].userId == uid;
      var k :| 0 <= k < |s.accounts| && s.accounts[k] == accts[i];
      assert s.accounts[k].id == aid && s.accounts[k].userId == uid;
      assert Owns(s.accounts, uid, aid);
    }
  }

  /** The keys of the opening map are exactly the user's account ids. */
  lemma OpeningKeys(s: Store, uid: int)
    ensures forall k :: k in Opening(AccountsOf(s.accounts, uid)) <==> Owns(s.accounts, uid, k)
  {
    forall k
      ensures k in Opening(AccountsOf(s.accounts, uid)) <==> Owns(s.accounts, uid, k)
    {
      OwnsInAccountsOf(s, uid, k);
    }
  }

  /** The loop finishes exactly when every row of the user names one of the user's accounts. */
  lemma PostSucceeds(s: Store, uid: int)
    ensures Post(Opening(AccountsOf(s.accounts, uid)), RowsOf(s.txns, uid)).Some? <==>
              forall i :: 0 <= i < |s.txns| && s.txns[i].userId == uid ==>
                Owns(s.accounts, uid, s.txns[i].accountId)
  {
    OpeningKeys(s, uid);
    var rows := RowsOf(s.txns, uid);
    assert forall i :: 0 <= i < |s.txns| && s.txns[i].userId == uid ==> s.txns[i] in rows;
    assert forall i :: 0 <= i < |rows| ==> exists k :: 0 <= k < |s.txns| && s.txns[k] == rows[i];
  }

  /** After the loop, an account's entry is its balance as defined from the stored rows. */
  lemma PostBalance(s: Store, uid: int, a: Account)
    requires DistinctIds(s.accounts)
    requires a in s.accounts && a.userId == uid
    requires Post(Opening(AccountsOf(s.accounts, uid)), RowsOf(s.txns, uid)).Some?
    ensures Post(Opening(AccountsOf(s.accounts, uid)), RowsOf(s.txns, uid)).value[a.id] == Balance(s, a)
  {
    var accts := AccountsOf(s.accounts, uid);
    var i :| 0 <= i < |accts| && accts[i] == a;
    PostEntries(Opening(accts), RowsOf(s.txns, uid), uid, a.id);
    SumRowsOf(s.txns, Query(uid, Income, Some(a.id), AnyDate));
    SumRowsOf(s.txns, Query(uid, Expense, Some(a.id), AnyDate));
  }

  /**
   * The dashboard of user `uid` on day `today`. It fails exactly when one of
   * the user's rows names an account the user does not have; otherwise it
   * holds one balance per account of the user, and each equals the
   * account's initial balance plus its income minus its expenses.
   */
  function Build(s: Store, uid: int, today: int, fmt: int -> string): (r: Result<View>)
    ensures r.Ok? <==>
              forall i :: 0 <= i < |s.txns| && s.txns[i].userId == uid ==>
                Owns(s.accounts, uid, s.txns[i].accountId)
    ensures r.Ok? ==> forall k :: k in r.value.balances <==> Owns(s.accounts, uid, k)
    ensures r.Ok? && DistinctIds(s.accounts) ==>
              forall a :: a in s.accounts && a.userId == uid ==>
                a.id in r.value.balances && r.value.balances[a.id] == Balance(s, a)
  {
    var accts := AccountsOf(s.accounts, uid);
    PostSucceeds(s, uid);
    OpeningKeys(s, uid);
    match Post(Opening(accts), RowsOf(s.txns, uid))
    case None => Err(DanglingTransaction)
    case Some(balances) =>
      assert forall i :: 0 <= i < |accts| ==> accts[i].id in balances;
      assert DistinctIds(s.accounts) ==>
               forall a :: a in s.accounts && a.userId == uid ==>
                 a.id in balances && balances[a.id] == Balance(s, a) by {
        if DistinctIds(s.accounts) {
          forall a | a in s.accounts && a.userId == uid
            ensures a.id in balances && balances[a.id] == Balance(s, a)
          {
            assert a in accts;
            PostBalance(s, uid, a);
          }
        }
      }
      Ok(View(
        balances,
        Total(accts, balances),
        Sum(s.txns, LifetimeQuery(uid)),
        Sum(s.txns, TodayQuery(uid, fmt, today)),
        Sum(s.txns, WindowQuery(uid, fmt, today))))
  }
}
