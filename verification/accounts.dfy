/**
 * The account set-up page: creating an account from the fixed
 * category/detail catalog, overwriting an account's initial balance, and
 * deleting an account that no transaction references.
 */
module Accounts {
  import opened Text
  import opened Schema
  import opened AmountText

  /** The catalog of account categories and, per category, the allowed details (already sorted). */
  const Catalog: map<string, seq<string>> := map[
    "CASH" := ["Cash"],
    "E-WALLET" := [
      "Astrapay", "BluePay", "DANA", "GoPay", "I-Saku", "LinkAja", "OVO", "QRIS Merchant",
      "Sakuku", "ShopeePay"],
    "BANK" := [
      "BCA", "BJB", "BNI", "BRI", "BSI", "BTN", "Bank DKI", "Bank Mega", "Bank Neo Commerce",
      "CIMB Niaga", "CitiBank", "Commonwealth Bank", "DBS/Digibank", "HSBC", "Jenius", "Mandiri",
      "Maybank", "OCBC NISP", "Panin Bank", "Permata Bank", "SeaBank", "Standard Chartered",
      "Superbank"]
  ]

  predicate InCatalog(category: string, detail: string)
  {
    category in Catalog && detail in Catalog[category]
  }

  /** The display name: "Cash" for the cash category, "[CATEGORY] detail" otherwise. */
  function AccountName(category: string, detail: string): string
  {
    if category == "CASH" then "Cash" else "[" + category + "] " + detail
  }

  lemma CatalogKeys(category: string)
    ensures category in Catalog <==> category == "CASH" || category == "E-WALLET" || category == "BANK"
  {
  }

  /** The first character of a bracketed name is the category's first letter. */
  lemma BracketedName(category: string, detail: string)
    requires category != "CASH" && category != []
    ensures AccountName(category, detail)[0] == '['
    ensures AccountName(category, detail)[1] == category[0]
    ensures AccountName(category, detail)[|category| + 3..] == detail
    ensures AccountName(category, detail)[1..|category| + 1] == category
  {
  }

  /**
   * Distinct catalog entries get distinct names, so the per-user name check
   * is a check on the (category, detail) pair; for the cash category the
   * name is the detail itself.
   */
  lemma NamesIdentifyEntries(c1: string, d1: string, c2: string, d2: string)
    requires InCatalog(c1, d1) && InCatalog(c2, d2)
    ensures AccountName(c1, d1) == AccountName(c2, d2) <==> c1 == c2 && d1 == d2
    ensures c1 == "CASH" ==> AccountName(c1, d1) == d1
  {
    CatalogKeys(c1);
    CatalogKeys(c2);
    var n1, n2 := AccountName(c1, d1), AccountName(c2, d2);
    if c1 == "CASH" {
      assert d1 == "Cash";
    }
    if c1 != "CASH" {
      BracketedName(c1, d1);
    }
    if c2 != "CASH" {
      BracketedName(c2, d2);
    }
    if n1 == n2 && c1 != "CASH" && c2 != "CASH" {
      assert c1[0] == c2[0];
      assert c1 == c2;
    }
  }

  /** Whether user `uid` already has an account called `name`. */
  predicate HasName(accounts: seq<Account>, uid: int, name: string)
  {
    exists k :: 0 <= k < |accounts| && accounts[k].userId == uid && accounts[k].name == name
  }

  /**
   * Adding an account: the pair must be in the catalog, and the user must not
   * already have an account of that name; then exactly one row, owned by
   * the user, is appended and nothing else changes.
   */
  function CreateAccount(s: Store, uid: int, category: string, detail: string, balance: real): (r: Result<Store>)
    ensures !InCatalog(category, detail) ==> r == Err(InvalidSelection)
    ensures InCatalog(category, detail) ==>
              (r == Err(DuplicateAccount) <==> HasName(s.accounts, uid, AccountName(category, detail)))
    ensures r.Ok? || r == Err(InvalidSelection) || r == Err(DuplicateAccount)
    ensures r.Ok? ==>
              && r.value.users == s.users
              && r.value.txns == s.txns
              && r.value.nextUserId == s.nextUserId && r.value.nextTxnId == s.nextTxnId
              && r.value.nextAccountId == s.nextAccountId + 1
              && r.value.accounts == s.accounts + [Account(s.nextAccountId, uid, AccountName(category, detail), balance)]
  {
    if !InCatalog(category, detail) then Err(InvalidSelection)
    else
      var name := AccountName(category, detail);
      if HasName(s.accounts, uid, name) then Err(DuplicateAccount)
      else
        Ok(s.(accounts := s.accounts + [Account(s.nextAccountId, uid, name, balance)],
              nextAccountId := s.nextAccountId + 1))
  }

  /** Account names are scoped per user: another user's account of the same name is no obstacle. */
  lemma SameNameOtherUser(s: Store, uid: int, other: int, category: string, detail: string, balance: real)
    requires InCatalog(category, detail)
    requires forall k :: 0 <= k < |s.accounts| && s.accounts[k].name == AccountName(category, detail) ==>
               s.accounts[k].userId == other
    requires uid != other
    ensures CreateAccount(s, uid, category, detail, balance).Ok?
  {
  }

  /** The balance edit: the row with this id and this owner gets the new initial balance; no other row changes. */
  function SetBalance(accounts: seq<Account>, uid: int, aid: int, balance: real): (r: seq<Account>)
    ensures |r| == |accounts|
    ensures forall i :: 0 <= i < |r| ==>
              r[i] == if accounts[i].id == aid && accounts[i].userId == uid
                      then accounts[i].(initialBalance := balance) else accounts[i]
  {
    if accounts == [] then []
    else
      var a := accounts[0];
      var rest := SetBalance(accounts[1..], uid, aid, balance);
      [if a.id == aid && a.userId == uid then a.(initialBalance := balance) else a] + rest
  }

  /**
   * Editing an account overwrites the initial balance of the row matching
   * both the id and the user; transactions and everything else stay as
   * they were. An id text that names no row of the user changes nothing.
   */
  function EditBalance(s: Store, uid: int, idText: string, balance: real): (r: Store)
    ensures r.users == s.users && r.txns == s.txns
    ensures r.nextUserId == s.nextUserId && r.nextAccountId == s.nextAccountId && r.nextTxnId == s.nextTxnId
    ensures |r.accounts| == |s.accounts|
    ensures forall i :: 0 <= i < |s.accounts| ==>
              && r.accounts[i].id == s.accounts[i].id
              && r.accounts[i].userId == s.accounts[i].userId
              && r.accounts[i].name == s.accounts[i].name
    ensures forall i :: 0 <= i < |s.accounts| ==>
              r.accounts[i].initialBalance ==
                if ParseId(idText) == Some(s.accounts[i].id) && s.accounts[i].userId == uid
                then balance else s.accounts[i].initialBalance
  {
    match ParseId(idText)
    case None => s
    case Some(aid) => s.(accounts := SetBalance(s.accounts, uid, aid, balance))
  }

  /** An edit aimed at an account the user does not own is a silent no-op. */
  lemma EditForeignIsNoop(s: Store, uid: int, idText: string, balance: real)
    requires ParseId(idText).None? || !Owns(s.accounts, uid, ParseId(idText).value)
    ensures EditBalance(s, uid, idText, balance) == s
  {
    var r := EditBalance(s, uid, idText, balance);
    assert r.accounts == s.accounts;
  }

  /** How many of user `uid`'s transaction rows name account `aid`. */
  function RefCount(ts: seq<Txn>, uid: int, aid: int): (n: nat)
    ensures n <= |ts|
    ensures n == 0 <==> forall i :: 0 <= i < |ts| ==> !(ts[i].accountId == aid && ts[i].userId == uid)
  {
    if ts == [] then 0
    else
      assert forall i :: 1 <= i < |ts| ==> ts[i] == ts[1..][i - 1];
      (if ts[0].accountId == aid && ts[0].userId == uid then 1 else 0) + RefCount(ts[1..], uid, aid)
  }

  /** The name of the first account row with id `aid`, whoever owns it, or "Akun" when no row has that id. */
  function NameById(accounts: seq<Account>, aid: int): (name: string)
    ensures (forall k :: 0 <= k < |accounts| ==> accounts[k].id != aid) ==> name == "Akun"
    ensures (exists k :: 0 <= k < |accounts| && accounts[k].id == aid) ==>
              exists k :: 0 <= k < |accounts| && accounts[k].id == aid && accounts[k].name == name
                          && forall j :: 0 <= j < k ==> accounts[j].id != aid
  {
    if accounts == [] then "Akun"
    else if accounts[0].id == aid then accounts[0].name
    else
      assert forall i :: 1 <= i < |accounts| ==> accounts[i] == accounts[1..][i - 1];
      NameById(accounts[1..], aid)
  }

  /** The account rows without those that have id `aid` and belong to `uid`; the others keep their order. */
  function Without(accounts: seq<Account>, uid: int, aid: int): (r: seq<Account>)
    ensures forall a :: a in r <==> a in accounts && !(a.id == aid && a.userId == uid)
    ensures !Owns(accounts, uid, aid) ==> r == accounts
  {
    if accounts == [] then []
    else
      var a := accounts[0];
      var rest := Without(accounts[1..], uid, aid);
      assert forall b :: b in accounts <==> b == a || b in accounts[1..];
      if a.id == aid && a.userId == uid then rest
      else
        assert Owns(accounts, uid, aid) ==> Owns(accounts[1..], uid, aid);
        [a] + rest
  }

  /** Removing rows cannot break the table's key constraints. */
  lemma {:induction false} WithoutKeys(accounts: seq<Account>, uid: int, aid: int)
    requires AccountKeys(accounts)
    ensures AccountKeys(Without(accounts, uid, aid))
  {
    if accounts != [] {
      var a := accounts[0];
      var tail := accounts[1..];
      assert accounts == [a] + tail;
      assert AccountKeys(tail) by {
        assert forall i :: 1 <= i < |accounts| ==> accounts[i] == tail[i - 1];
      }
      WithoutKeys(tail, uid, aid);
      var rest := Without(tail, uid, aid);
      if !(a.id == aid && a.userId == uid) {
        assert Without(accounts, uid, aid) == [a] + rest;
        KeysCons(a, tail, rest);
      }
    }
  }

  /** Putting a row in front of rows drawn from the rows after it keeps the key constraints. */
  lemma KeysCons(a: Account, tail: seq<Account>, rest: seq<Account>)
    requires AccountKeys([a] + tail)
    requires AccountKeys(rest)
    requires forall b :: b in rest ==> b in tail
    ensures AccountKeys([a] + rest)
  {
    var accounts := [a] + tail;
    var r := [a] + rest;
    forall j | 0 <= j < |rest|
      ensures rest[j].id != a.id && (rest[j].userId != a.userId || rest[j].name != a.name)
    {
      assert rest[j] in rest;
      var k :| 0 <= k < |tail| && tail[k] == rest[j];
      assert accounts[k + 1] == rest[j] && accounts[0] == a;
      assert accounts[0].id != accounts[k + 1].id;
      assert accounts[0].userId != accounts[k + 1].userId || accounts[0].name != accounts[k + 1].name;
    }
    forall i, j | 0 <= i < j < |r|
      ensures r[i].id != r[j].id && (r[i].userId != r[j].userId || r[i].name != r[j].name)
    {
      assert r[j] == rest[j - 1];
      if i > 0 {
        assert r[i] == rest[i - 1];
      }
    }
  }

  /**
   * Deleting account `aid` of user `uid`. An id of 0 (falsy in the source)
   * does nothing. While the user has transactions on the account the store
   * is unchanged and the error carries their count; otherwise only the row
   * matching both id and user is removed.
   */
  function DeleteAccount(s: Store, uid: int, aid: int): (r: Result<Store>)
    ensures aid == 0 ==> r == Ok(s)
    ensures aid != 0 ==> (r.Err? <==> RefCount(s.txns, uid, aid) > 0)
    ensures r.Err? ==> r.error == AccountInUse(RefCount(s.txns, uid, aid), NameById(s.accounts, aid))
    ensures r.Ok? ==>
              && r.value.users == s.users && r.value.txns == s.txns
              && r.value.nextUserId == s.nextUserId && r.value.nextAccountId == s.nextAccountId
              && r.value.nextTxnId == s.nextTxnId
              && forall a :: a in r.value.accounts <==> a in s.accounts && !(aid != 0 && a.id == aid && a.userId == uid)
  {
    if aid == 0 then Ok(s)
    else
      var count := RefCount(s.txns, uid, aid);
      if count > 0 then Err(AccountInUse(count, NameById(s.accounts, aid)))
      else Ok(s.(accounts := Without(s.accounts, uid, aid)))
  }

  /**
   * The name in an "account in use" error comes from a lookup by id alone,
   * yet in a consistent store it is always the name of the user's own
   * account: a user's transactions only ever point at the user's accounts.
   */
  lemma InUseNameIsOwn(s: Store, uid: int, aid: int)
    requires Valid(s)
    requires DeleteAccount(s, uid, aid).Err?
    ensures exists k :: 0 <= k < |s.accounts| && s.accounts[k].id == aid && s.accounts[k].userId == uid
                        && DeleteAccount(s, uid, aid).error.name == s.accounts[k].name
  {
    var i :| 0 <= i < |s.txns| && s.txns[i].accountId == aid && s.txns[i].userId == uid;
    assert Owns(s.accounts, uid, aid);
    var k :| 0 <= k < |s.accounts| && s.accounts[k].id == aid && s.accounts[k].userId == uid;
    var k' :| 0 <= k' < |s.accounts| && s.accounts[k'].id == aid && s.accounts[k'].name == NameById(s.accounts, aid)
              && forall j :: 0 <= j < k' ==> s.accounts[j].id != aid;
    assert k == k';
  }

  /** The action field of the set-up form. */
  datatype Action = Add(category: string, detail: string) | Edit(accountIdText: string) | Other

  /**
   * A POST to the set-up page. The balance text is normalised and parsed
   * before the action is looked at, so a bad amount fails every action, and
   * an unknown action changes nothing.
   */
  function SetupAccount(s: Store, uid: int, balanceText: string, action: Action,
                        parse: string -> Option<real>): (r: Result<Store>)
    ensures ParseAmount(balanceText, parse).None? ==> r == Err(InvalidAmount)
    ensures ParseAmount(balanceText, parse).Some? && action.Other? ==> r == Ok(s)
    ensures r.Ok? ==> r.value.users == s.users && r.value.txns == s.txns
    ensures r.Err? ==> r.error in {InvalidAmount, InvalidSelection, DuplicateAccount}
  {
    match ParseAmount(balanceText, parse)
    case None => Err(InvalidAmount)
    case Some(balance) =>
      match action
      case Add(category, detail) => CreateAccount(s, uid, category, detail, balance)
      case Edit(idText) => Ok(EditBalance(s, uid, idText, balance))
      case Other => Ok(s)
  }

  /** Appending a row under the next id and a name new to its user keeps the store consistent. */
  lemma AppendAccountKeepsValid(s: Store, a: Account)
    requires Valid(s)
    requires a.id == s.nextAccountId
    requires !HasName(s.accounts, a.userId, a.name)
    ensures Valid(s.(accounts := s.accounts + [a], nextAccountId := s.nextAccountId + 1))
  {
    var r := s.(accounts := s.accounts + [a], nextAccountId := s.nextAccountId + 1);
    var n := |s.accounts|;
    assert forall i :: 0 <= i < n ==> r.accounts[i] == s.accounts[i];
    assert forall i :: 0 <= i < n ==> r.accounts[i].userId != a.userId || r.accounts[i].name != a.name;
    forall i | 0 <= i < |r.txns|
      ensures Owns(r.accounts, r.txns[i].userId, r.txns[i].accountId)
    {
      var k :| 0 <= k < n && s.accounts[k].id == s.txns[i].accountId && s.accounts[k].userId == s.txns[i].userId;
      assert r.accounts[k] == s.accounts[k];
    }
  }

  /** Creating an account keeps the store consistent. */
  lemma CreateKeepsValid(s: Store, uid: int, category: string, detail: string, balance: real)
    requires Valid(s)
    requires CreateAccount(s, uid, category, detail, balance).Ok?
    ensures Valid(CreateAccount(s, uid, category, detail, balance).value)
  {
    var a := Account(s.nextAccountId, uid, AccountName(category, detail), balance);
    assert CreateAccount(s, uid, category, detail, balance).value
           == s.(accounts := s.accounts + [a], nextAccountId := s.nextAccountId + 1);
    AppendAccountKeepsValid(s, a);
  }

  /** Editing a balance keeps the store consistent. */
  lemma EditKeepsValid(s: Store, uid: int, idText: string, balance: real)
    requires Valid(s)
    ensures Valid(EditBalance(s, uid, idText, balance))
  {
    var r := EditBalance(s, uid, idText, balance);
    forall i | 0 <= i < |r.txns|
      ensures Owns(r.accounts, r.txns[i].userId, r.txns[i].accountId)
    {
      var k :| 0 <= k < |s.accounts| && s.accounts[k].id == s.txns[i].accountId && s.accounts[k].userId == s.txns[i].userId;
      assert r.accounts[k].id == s.accounts[k].id && r.accounts[k].userId == s.accounts[k].userId;
    }
  }

  lemma DeleteKeepsRefs(s: Store, uid: int, aid: int)
    requires TxnsValid(s)
    requires RefCount(s.txns, uid, aid) == 0
    ensures forall i :: 0 <= i < |s.txns| ==>
              Owns(Without(s.accounts, uid, aid), s.txns[i].userId, s.txns[i].accountId)
  {
    var r := Without(s.accounts, uid, aid);
    forall i | 0 <= i < |s.txns|
      ensures Owns(r, s.txns[i].userId, s.txns[i].accountId)
    {
      var t := s.txns[i];
      assert Owns(s.accounts, t.userId, t.accountId);
      var k :| 0 <= k < |s.accounts| && s.accounts[k].id == t.accountId && s.accounts[k].userId == t.userId;
      assert !(t.accountId == aid && t.userId == uid);
      assert s.accounts[k] in r;
      var j :| 0 <= j < |r| && r[j] == s.accounts[k];
    }
  }

  /**
   * Deleting keeps the store consistent: the guard guarantees that no
   * transaction is left pointing at the removed account.
   */
  lemma DeleteKeepsValid(s: Store, uid: int, aid: int)
    requires Valid(s)
    requires DeleteAccount(s, uid, aid).Ok?
    ensures Valid(DeleteAccount(s, uid, aid).value)
  {
    if aid != 0 {
      var r := Without(s.accounts, uid, aid);
      assert DeleteAccount(s, uid, aid).value == s.(accounts := r);
      WithoutKeys(s.accounts, uid, aid);
      DeleteKeepsRefs(s, uid, aid);
      forall i | 0 <= i < |r|
        ensures 1 <= r[i].id < s.nextAccountId
      {
        assert r[i] in s.accounts;
      }
    }
  }

  /** Removing the row appended last, when no earlier row shares its id, gives back the earlier rows. */
  lemma {:induction false} WithoutLast(accounts: seq<Account>, a: Account)
    requires forall k :: 0 <= k < |accounts| ==> accounts[k].id != a.id
    ensures Without(accounts + [a], a.userId, a.id) == accounts
  {
    if accounts != [] {
      assert (accounts + [a])[1..] == accounts[1..] + [a];
      assert forall k :: 1 <= k < |accounts| ==> accounts[k] == accounts[1..][k - 1];
      WithoutLast(accounts[1..], a);
    }
  }

  /** In a consistent store neither an account nor a transaction carries the id the next account will get. */
  lemma NextIdUnused(s: Store)
    requires Valid(s)
    ensures forall k :: 0 <= k < |s.accounts| ==> s.accounts[k].id != s.nextAccountId
    ensures forall i :: 0 <= i < |s.txns| ==> s.txns[i].accountId != s.nextAccountId
  {
    forall i | 0 <= i < |s.txns|
      ensures s.txns[i].accountId != s.nextAccountId
    {
      var k :| 0 <= k < |s.accounts| && s.accounts[k].id == s.txns[i].accountId
               && s.accounts[k].userId == s.txns[i].userId;
    }
  }

  /** Deleting a row appended under an id nothing else carries undoes the append. */
  lemma DeleteAppended(s: Store, a: Account)
    requires a.id != 0
    requires forall k :: 0 <= k < |s.accounts| ==> s.accounts[k].id != a.id
    requires forall i :: 0 <= i < |s.txns| ==> s.txns[i].accountId != a.id
    ensures DeleteAccount(s.(accounts := s.accounts + [a]), a.userId, a.id) == Ok(s)
  {
    var c := s.(accounts := s.accounts + [a]);
    assert RefCount(c.txns, a.userId, a.id) == 0;
    WithoutLast(s.accounts, a);
    assert DeleteAccount(c, a.userId, a.id) == Ok(c.(accounts := s.accounts));
  }

  /**
   * Deleting an account right after creating it gives back the store as it
   * was, except that the id counter has moved on (ids are never reused).
   */
  lemma CreateThenDelete(s: Store, uid: int, category: string, detail: string, balance: real)
    requires Valid(s)
    requires CreateAccount(s, uid, category, detail, balance).Ok?
    ensures DeleteAccount(CreateAccount(s, uid, category, detail, balance).value, uid, s.nextAccountId)
            == Ok(s.(nextAccountId := s.nextAccountId + 1))
  {
    var a := Account(s.nextAccountId, uid, AccountName(category, detail), balance);
    var s' := s.(nextAccountId := s.nextAccountId + 1);
    assert CreateAccount(s, uid, category, detail, balance).value == s'.(accounts := s'.accounts + [a]);
    NextIdUnused(s);
    DeleteAppended(s', a);
  }

  /** Every outcome of the set-up page leaves a consistent store consistent. */
  lemma SetupKeepsValid(s: Store, uid: int, balanceText: string, action: Action, parse: string -> Option<real>)
    requires Valid(s)
    requires SetupAccount(s, uid, balanceText, action, parse).Ok?
    ensures Valid(SetupAccount(s, uid, balanceText, action, parse).value)
  {
    var balance := ParseAmount(balanceText, parse).value;
    match action
    case Add(category, detail) => CreateKeepsValid(s, uid, category, detail, balance);
    case Edit(idText) => EditKeepsValid(s, uid, idText, balance);
    case Other =>
  }
}
