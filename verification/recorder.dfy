/**
 * The transaction recorder: validates the add-transaction form, checks that
 * the chosen account belongs to the user, and appends one ledger row.
 * Existing rows are never changed.
 */
module Recorder {
  import opened Text
  import opened Storage
  import opened Schema
  import opened AmountText
  import opened Aggregate
  import opened Dashboard

  /** The fields of the add-transaction form, as submitted. */
  datatype TxnForm = TxnForm(date: string, accountId: string, kind: string, amount: string, description: string)

  /** The CHECK constraint on the `type` column: only "income" and "expense" are stored. */
  function KindOf(text: string): (r: Option<Kind>)
    ensures r == Some(Income) <==> text == "income"
    ensures r == Some(Expense) <==> text == "expense"
    ensures r.None? <==> text != "income" && text != "expense"
  {
    if text == "income" then Some(Income)
    else if text == "expense" then Some(Expense)
    else None
  }

  /** Every stored type reads back as itself. */
  lemma KindTextRoundTrip(k: Kind)
    ensures KindOf(KindText(k)) == Some(k)
  {
  }

  /** The form's required fields are present and the parsed amount is positive. */
  predicate FieldsOk(f: TxnForm, amount: real)
  {
    f.date != [] && f.accountId != [] && f.kind != [] && amount > 0.0
  }

  /** The account the form names belongs to user `uid`. */
  predicate AccountOwned(s: Store, uid: int, f: TxnForm)
  {
    ParseId(f.accountId).Some? && Owns(s.accounts, uid, ParseId(f.accountId).value)
  }

  /**
   * Recording a transaction for user `uid`. The amount is parsed first; then
   * an empty date, account or type, or an amount that is not positive, is
   * rejected; then an account the user does not own; then a type the CHECK
   * constraint refuses. On success exactly one row, tagged with the user's
   * id, is appended and every existing row is kept.
   */
  function Record(s: Store, uid: int, f: TxnForm, parse: string -> Option<real>): (r: Result<Store>)
    ensures ParseAmount(f.amount, parse).None? ==> r == Err(InvalidAmount)
    ensures ParseAmount(f.amount, parse).Some? ==>
              (r == Err(MissingField) <==> !FieldsOk(f, ParseAmount(f.amount, parse).value))
    ensures r == Err(AccountNotFound) <==>
              && ParseAmount(f.amount, parse).Some?
              && FieldsOk(f, ParseAmount(f.amount, parse).value)
              && !AccountOwned(s, uid, f)
    ensures r == Err(TypeRejected) <==>
              && ParseAmount(f.amount, parse).Some?
              && FieldsOk(f, ParseAmount(f.amount, parse).value)
              && AccountOwned(s, uid, f)
              && KindOf(f.kind).None?
    ensures r.Ok? || r.error in {InvalidAmount, MissingField, AccountNotFound, TypeRejected}
    ensures r.Ok? ==>
              && r.value.users == s.users && r.value.accounts == s.accounts
              && r.value.nextUserId == s.nextUserId && r.value.nextAccountId == s.nextAccountId
              && r.value.nextTxnId == s.nextTxnId + 1
              && |r.value.txns| == |s.txns| + 1
              && r.value.txns[..|s.txns|] == s.txns
    ensures r.Ok? ==>
              var t := r.value.txns[|s.txns|];
              && t.id == s.nextTxnId
              && t.userId == uid
              && t.date == Affinity(f.date)
              && t.description == f.description
              && Owns(s.accounts, uid, t.accountId)
              && Some(t.accountId) == ParseId(f.accountId)
              && Some(t.kind) == KindOf(f.kind)
              && Some(t.amount) == ParseAmount(f.amount, parse)
              && t.amount > 0.0
  {
    match ParseAmount(f.amount, parse)
    case None => Err(InvalidAmount)
    case Some(amount) =>
      if !FieldsOk(f, amount) then Err(MissingField)
      else if !AccountOwned(s, uid, f) then Err(AccountNotFound)
      else
        match KindOf(f.kind)
        case None => Err(TypeRejected)
        case Some(kind) =>
          var t := Txn(s.nextTxnId, uid, Affinity(f.date), ParseId(f.accountId).value, kind, amount, f.description);
          assert (s.txns + [t])[..|s.txns|] == s.txns;
          Ok(s.(txns := s.txns + [t], nextTxnId := s.nextTxnId + 1))
  }

  /**
   * Any positive amount, however small, is accepted when the other fields
   * are filled in, the account is the user's and the type is admitted.
   */
  lemma SmallestAmountAccepted(s: Store, uid: int, f: TxnForm, parse: string -> Option<real>)
    requires ParseAmount(f.amount, parse).Some? && ParseAmount(f.amount, parse).value > 0.0
    requires f.date != [] && f.accountId != [] && f.kind != []
    requires AccountOwned(s, uid, f)
    requires f.kind == "income" || f.kind == "expense"
    ensures Record(s, uid, f, parse).Ok?
  {
  }

  /** Recording keeps the store consistent. */
  lemma RecordKeepsValid(s: Store, uid: int, f: TxnForm, parse: string -> Option<real>)
    requires Valid(s)
    ensures Record(s, uid, f, parse).Ok? ==> Valid(Record(s, uid, f, parse).value)
  {
    if Record(s, uid, f, parse).Ok? {
      var r := Record(s, uid, f, parse).value;
      var t := r.txns[|s.txns|];
      assert r.txns == s.txns + [t];
      assert r == s.(txns := s.txns + [t], nextTxnId := s.nextTxnId + 1);
      AppendTxnKeepsValid(s, t);
    }
  }

  /** Appending a positive row under the next id, on an account of its own user, keeps the store consistent. */
  lemma AppendTxnKeepsValid(s: Store, t: Txn)
    requires Valid(s)
    requires t.id == s.nextTxnId && t.amount > 0.0 && Owns(s.accounts, t.userId, t.accountId)
    ensures Valid(s.(txns := s.txns + [t], nextTxnId := s.nextTxnId + 1))
  {
    var r := s.(txns := s.txns + [t], nextTxnId := s.nextTxnId + 1);
    assert forall i :: 0 <= i < |s.txns| ==> r.txns[i] == s.txns[i];
  }

  /**
   * A recorded transaction moves the balance of exactly its own account:
   * up by the amount for income, down for expense. Every other account's
   * balance stays where it was.
   */
  lemma RecordMovesOneBalance(s: Store, uid: int, f: TxnForm, parse: string -> Option<real>, a: Account)
    requires Record(s, uid, f, parse).Ok?
    ensures var r := Record(s, uid, f, parse).value;
            var t := r.txns[|s.txns|];
            Balance(r, a) == Balance(s, a)
                             + (if a.id == t.accountId && a.userId == uid
                                then (if t.kind == Income then t.amount else -t.amount)
                                else 0.0)
  {
    var r := Record(s, uid, f, parse).value;
    var t := r.txns[|s.txns|];
    assert r.txns == s.txns + [t];
    AppendMovesOneBalance(s, r, t, a);
  }

  /** Appending row `t` moves only the balance of the account it names, by its signed amount. */
  lemma AppendMovesOneBalance(s: Store, r: Store, t: Txn, a: Account)
    requires r.txns == s.txns + [t]
    ensures Balance(r, a) == Balance(s, a)
                             + (if a.id == t.accountId && a.userId == t.userId
                                then (if t.kind == Income then t.amount else -t.amount)
                                else 0.0)
  {
    SumAppend(s.txns, t, Query(a.userId, Income, Some(a.id), AnyDate));
    SumAppend(s.txns, t, Query(a.userId, Expense, Some(a.id), AnyDate));
  }
}
