/**
 * Laws of the dashboard figures: the total balance is the user's net worth
 * (initial balances plus income minus expenses), an empty ledger shows
 * zeros everywhere, the window aggregate covers exactly eight days, and the
 * three expense figures are ordered today <= window <= lifetime.
 */
module DashboardLaws {
  import opened Text
  import opened Storage
  import opened Schema
  import opened Aggregate
  import opened Dashboard

  /** Sum of the initial balances of `accts`. */
  function Initials(accts: seq<Account>): real
  {
    if accts == [] then 0.0 else accts[0].initialBalance + Initials(accts[1..])
  }

  function AccountQuery(uid: int, kind: Kind, a: Account): Query
  {
    Query(uid, kind, Some(a.id), AnyDate)
  }

  /** The per-account sums of one kind, added over `accts`. */
  function PerAccount(accts: seq<Account>, ts: seq<Txn>, uid: int, kind: Kind): real
  {
    if accts == [] then 0.0
    else Sum(ts, AccountQuery(uid, kind, accts[0])) + PerAccount(accts[1..], ts, uid, kind)
  }

  /** What one row contributes to the per-account sums over `accts`. */
  function Hits(accts: seq<Account>, t: Txn, uid: int, kind: Kind): real
  {
    if accts == [] then 0.0
    else Contribution(AccountQuery(uid, kind, accts[0]), t) + Hits(accts[1..], t, uid, kind)
  }

  lemma {:induction false} NoHit(accts: seq<Account>, t: Txn, uid: int, kind: Kind)
    requires forall i :: 0 <= i < |accts| ==> accts[i].id != t.accountId
    ensures Hits(accts, t, uid, kind) == 0.0
  {
    if accts != [] {
      NoHit(accts[1..], t, uid, kind);
    }
  }

  /** A row of an account listed exactly once contributes to exactly one per-account sum. */
  lemma {:induction false} OneHit(accts: seq<Account>, t: Txn, uid: int, kind: Kind)
    requires DistinctIds(accts)
    requires t.userId == uid ==> Listed(accts, t.accountId)
    ensures Hits(accts, t, uid, kind) == Contribution(Query(uid, kind, None, AnyDate), t)
  {
    if t.userId != uid {
      NoHitOtherUser(accts, t, uid, kind);
    } else if accts[0].id == t.accountId {
      NoHit(accts[1..], t, uid, kind);
    } else {
      var i :| 0 <= i < |accts| && accts[i].id == t.accountId;
      assert accts[1..][i - 1].id == t.accountId;
      OneHit(accts[1..], t, uid, kind);
    }
  }

  lemma {:induction false} NoHitOtherUser(accts: seq<Account>, t: Txn, uid: int, kind: Kind)
    requires t.userId != uid
    ensures Hits(accts, t, uid, kind) == 0.0
  {
    if accts != [] {
      NoHitOtherUser(accts[1..], t, uid, kind);
    }
  }

  lemma {:induction false} PerAccountCons(accts: seq<Account>, t: Txn, ts: seq<Txn>, uid: int, kind: Kind)
    ensures PerAccount(accts, [t] + ts, uid, kind) == Hits(accts, t, uid, kind) + PerAccount(accts, ts, uid, kind)
  {
    assert ([t] + ts)[1..] == ts;
    if accts != [] {
      PerAccountCons(accts[1..], t, ts, uid, kind);
    }
  }

  lemma {:induction false} PerAccountEmpty(accts: seq<Account>, uid: int, kind: Kind)
    ensures PerAccount(accts, [], uid, kind) == 0.0
  {
    if accts != [] {
      PerAccountEmpty(accts[1..], uid, kind);
    }
  }

  /**
   * Adding the per-account sums over the user's accounts gives the sum over
   * all of the user's rows, when every row names exactly one listed account.
   */
  lemma {:induction false} Exchange(accts: seq<Account>, ts: seq<Txn>, uid: int, kind: Kind)
    requires DistinctIds(accts)
    requires forall i :: 0 <= i < |ts| && ts[i].userId == uid ==> Listed(accts, ts[i].accountId)
    ensures PerAccount(accts, ts, uid, kind) == Sum(ts, Query(uid, kind, None, AnyDate))
  {
    if ts == [] {
      PerAccountEmpty(accts, uid, kind);
    } else {
      assert ts == [ts[0]] + ts[1..];
      PerAccountCons(accts, ts[0], ts[1..], uid, kind);
      OneHit(accts, ts[0], uid, kind);
      assert forall i :: 1 <= i < |ts| ==> ts[i] == ts[1..][i - 1];
      Exchange(accts, ts[1..], uid, kind);
    }
  }

  /** A total over accounts whose entries are their balances splits into its three parts. */
  lemma {:induction false} TotalSplit(accts: seq<Account>, m: map<int, real>, ts: seq<Txn>, uid: int)
    requires forall i :: 0 <= i < |accts| ==>
               accts[i].id in m
               && m[accts[i].id] == accts[i].initialBalance
                                    + Sum(ts, AccountQuery(uid, Income, accts[i]))
                                    - Sum(ts, AccountQuery(uid, Expense, accts[i]))
    ensures Total(accts, m) == Initials(accts) + PerAccount(accts, ts, uid, Income)
                                               - PerAccount(accts, ts, uid, Expense)
  {
    if accts != [] {
      assert forall i :: 1 <= i < |accts| ==> accts[i] == accts[1..][i - 1];
      TotalSplit(accts[1..], m, ts, uid);
    }
  }

  lemma ValidDistinct(s: Store)
    requires Valid(s)
    ensures DistinctIds(s.accounts)
  {
  }

  /** In a consistent store every row of the user names one of the user's listed accounts. */
  lemma RowsNameListedAccounts(s: Store, uid: int)
    requires Valid(s)
    ensures forall i :: 0 <= i < |s.txns| && s.txns[i].userId == uid ==>
              Listed(AccountsOf(s.accounts, uid), s.txns[i].accountId)
  {
    forall i | 0 <= i < |s.txns| && s.txns[i].userId == uid
      ensures Listed(AccountsOf(s.accounts, uid), s.txns[i].accountId)
    {
      assert Owns(s.accounts, uid, s.txns[i].accountId);
      OwnsInAccountsOf(s, uid, s.txns[i].accountId);
    }
  }

  /**
   * On a consistent store the dashboard never fails, and its total balance
   * is the user's initial balances plus all income minus all expenses.
   */
  lemma TotalBalance(s: Store, uid: int, today: int, fmt: int -> string)
    requires Valid(s)
    ensures Build(s, uid, today, fmt).Ok?
    ensures Build(s, uid, today, fmt).value.total ==
              Initials(AccountsOf(s.accounts, uid))
              + Sum(s.txns, Query(uid, Income, None, AnyDate))
              - Sum(s.txns, Query(uid, Expense, None, AnyDate))
  {
    var r := Build(s, uid, today, fmt);
    var accts := AccountsOf(s.accounts, uid);
    ValidDistinct(s);
    assert r.Ok?;
    var m := r.value.balances;
    forall i | 0 <= i < |accts|
      ensures accts[i].id in m
      ensures m[accts[i].id] == accts[i].initialBalance
                                + Sum(s.txns, AccountQuery(uid, Income, accts[i]))
                                - Sum(s.txns, AccountQuery(uid, Expense, accts[i]))
    {
      assert accts[i] in s.accounts;
    }
    assert r.value.total == Total(accts, m);
    TotalSplit(accts, m, s.txns, uid);
    RowsNameListedAccounts(s, uid);
    Exchange(accts, s.txns, uid, Income);
    Exchange(accts, s.txns, uid, Expense);
  }

  /** A user with no accounts sees a total of 0 and three expense figures of 0. */
  lemma NoAccountsAllZero(s: Store, uid: int, today: int, fmt: int -> string)
    requires Valid(s)
    requires AccountsOf(s.accounts, uid) == []
    ensures Build(s, uid, today, fmt).Ok?
    ensures Build(s, uid, today, fmt).value.total == 0.0
    ensures Build(s, uid, today, fmt).value.totalExpense == 0.0
    ensures Build(s, uid, today, fmt).value.expenseToday == 0.0
    ensures Build(s, uid, today, fmt).value.expenseWindow == 0.0
  {
    TotalBalance(s, uid, today, fmt);
    RowsNameListedAccounts(s, uid);
    assert forall i :: 0 <= i < |s.txns| ==> s.txns[i].userId != uid;
  }

  /** A brand-new account, with no rows, reports its initial balance. */
  lemma FreshAccountBalance(s: Store, a: Account)
    requires forall i :: 0 <= i < |s.txns| ==> s.txns[i].accountId != a.id
    ensures Balance(s, a) == a.initialBalance
  {
  }

  /** Balances depend on which rows are stored, not on their order. */
  lemma BalanceOrderIndependent(s: Store, s': Store, a: Account)
    requires multiset(s.txns) == multiset(s'.txns)
    ensures Balance(s, a) == Balance(s', a)
  {
    SumPermutation(s.txns, s'.txns, Query(a.userId, Income, Some(a.id), AnyDate));
    SumPermutation(s.txns, s'.txns, Query(a.userId, Expense, Some(a.id), AnyDate));
  }

  /** `fmt` lists days in text order: a later day never gets a smaller text. */
  ghost predicate OrderEmbedding(fmt: int -> string)
  {
    forall a: int, b: int :: a <= b <==> TextLe(fmt(a), fmt(b))
  }

  /** The two bounds of the window are spelled `YYYY-MM-DD`, as the dashboard formats dates. */
  predicate IsoWindow(fmt: int -> string, today: int)
  {
    IsoDate(fmt(today - 7)) && IsoDate(fmt(today))
  }

  /**
   * The window from `fmt(today - 7)` to `fmt(today)` admits a row dated
   * with the text of day `d` exactly when `d` is one of the eight days
   * today-7, ..., today, both ends included.
   */
  lemma WindowIsEightDays(fmt: int -> string, today: int, d: int)
    requires OrderEmbedding(fmt) && IsoWindow(fmt, today) && IsoDate(fmt(d))
    ensures DateMatches(WindowFilter(fmt, today), Affinity(fmt(d))) <==> today - 7 <= d <= today
  {
    IsoDatesCompareAsText(fmt(today - 7), fmt(d));
    IsoDatesCompareAsText(fmt(d), fmt(today));
  }

  lemma TodayWithinWindow(uid: int, fmt: int -> string, today: int)
    requires OrderEmbedding(fmt) && IsoWindow(fmt, today)
    ensures forall t :: Matches(TodayQuery(uid, fmt, today), t) ==> Matches(WindowQuery(uid, fmt, today), t)
  {
    assert TextLe(fmt(today - 7), fmt(today));
    IsoDatesCompareAsText(fmt(today - 7), fmt(today));
    ValueLeReflexive(Affinity(fmt(today)));
  }

  /**
   * A row whose date text is a numeric literal, such as "2024", is stored as
   * a number `x`. It is then counted neither in today's expense nor in the
   * window's, though it still counts in the lifetime expense.
   */
  lemma NumericDateOutsideWindow(fmt: int -> string, today: int, x: real)
    requires IsoWindow(fmt, today)
    ensures !DateMatches(OnDate(fmt(today)), Num(x))
    ensures !DateMatches(WindowFilter(fmt, today), Num(x))
  {
    assert !DateMatches(OnDate(fmt(today)), Num(x)) by {
      IsoDateIsText(fmt(today));
    }
    assert !DateMatches(WindowFilter(fmt, today), Num(x)) by {
      NumberBeforeIsoDate(x, fmt(today - 7));
    }
  }

  /** The row dated "2024" is stored as the number 2024 and lies outside the window from 2023-12-29 to 2024-01-05. */
  lemma YearOnlyDate()
    ensures Affinity("2024") == Num(2024.0)
    ensures !DateMatches(Between("2023-12-29", "2024-01-05"), Affinity("2024"))
  {
    YearIsNumber();
    LowBoundIsText();
  }

  lemma YearIsNumber()
    ensures Affinity("2024") == Num(2024.0)
  {
    var y := "2024";
    assert y[0] == '2' && y[1] == '0' && y[2] == '2' && y[3] == '4';
    assert AllDigits(y);
    assert y[..3] == "202" && "202"[..2] == "20" && "20"[..1] == "2" && "2"[..0] == [];
    assert DigitsValue("2") == 2;
    assert DigitsValue("20") == 20;
    assert DigitsValue("202") == 202;
    assert DigitsValue(y) == 2024;
    DigitTextIsNumber(y);
  }

  lemma LowBoundIsText()
    ensures Affinity("2023-12-29") == Txt("2023-12-29")
  {
    var lo := "2023-12-29";
    assert lo[0] == '2' && lo[1] == '0' && lo[2] == '2' && lo[3] == '3' && lo[4] == '-';
    assert lo[5] == '1' && lo[6] == '2' && lo[7] == '-' && lo[8] == '2' && lo[9] == '9';
    IsoDateIsText(lo);
  }

  lemma WindowWithinLifetime(uid: int, fmt: int -> string, today: int)
    ensures forall t :: Matches(WindowQuery(uid, fmt, today), t) ==> Matches(LifetimeQuery(uid), t)
  {
  }

  /** Today's expenses never exceed the window's, and those never exceed the lifetime total. */
  lemma ExpenseOrdering(s: Store, uid: int, today: int, fmt: int -> string)
    requires Valid(s)
    requires OrderEmbedding(fmt) && IsoWindow(fmt, today)
    ensures Build(s, uid, today, fmt).Ok?
    ensures Build(s, uid, today, fmt).value.expenseToday <= Build(s, uid, today, fmt).value.expenseWindow
    ensures Build(s, uid, today, fmt).value.expenseWindow <= Build(s, uid, today, fmt).value.totalExpense
  {
    TotalBalance(s, uid, today, fmt);
    var v := Build(s, uid, today, fmt).value;
    assert v.expenseToday == Sum(s.txns, TodayQuery(uid, fmt, today));
    assert v.expenseWindow == Sum(s.txns, WindowQuery(uid, fmt, today));
    assert v.totalExpense == Sum(s.txns, LifetimeQuery(uid));
    assert AllPositive(s.txns);
    TodayWithinWindow(uid, fmt, today);
    WindowWithinLifetime(uid, fmt, today);
    SumMonotone(s.txns, TodayQuery(uid, fmt, today), WindowQuery(uid, fmt, today));
    SumMonotone(s.txns, WindowQuery(uid, fmt, today), LifetimeQuery(uid));
  }
}
