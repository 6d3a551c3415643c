/**
 * The dashboard's recent-transactions list: the user's rows, optionally
 * narrowed to one account and one type, joined with their account's name,
 * ordered by stored date from latest to earliest and cut to the first 25.
 */
module Recent {
  import opened Text
  import opened Storage
  import opened Schema

  /** How many rows the list shows at most. */
  const Limit: nat := 25

  /** One line of the list: the row's date, description, type and amount, and its account's name. */
  datatype Line = Line(date: Value, description: string, kind: Kind, amount: real, accountName: string)

  function LineOf(t: Txn, a: Account): Line
  {
    Line(t.date, t.description, t.kind, t.amount, a.name)
  }

  /** A filter argument that is absent, empty or "all" does not narrow the list. */
  predicate Unfiltered(arg: Option<string>)
  {
    arg.None? || arg.value == [] || arg.value == "all"
  }

  /** The `WHERE` clause: the user's rows, on the chosen account and of the chosen type. */
  predicate Selected(t: Txn, uid: int, accountArg: Option<string>, typeArg: Option<string>)
  {
    && t.userId == uid
    && (Unfiltered(accountArg) || ParseId(accountArg.value) == Some(t.accountId))
    && (Unfiltered(typeArg) || typeArg.value == KindText(t.kind))
  }

  /** The join with the accounts table on the account id alone: one line per account row carrying that id. */
  function JoinOne(t: Txn, accounts: seq<Account>): (r: seq<Line>)
    ensures forall x :: x in r <==>
              exists k :: 0 <= k < |accounts| && accounts[k].id == t.accountId && x == LineOf(t, accounts[k])
    ensures Listed(accounts, t.accountId) && DistinctIds(accounts) ==> |r| == 1
    ensures !Listed(accounts, t.accountId) ==> r == []
  {
    if accounts == [] then []
    else
      assert forall k :: 1 <= k < |accounts| ==> accounts[k] == accounts[1..][k - 1];
      assert Listed(accounts[1..], t.accountId) ==> Listed(accounts, t.accountId);
      assert accounts[0].id != t.accountId && Listed(accounts, t.accountId) ==> Listed(accounts[1..], t.accountId);
      (if accounts[0].id == t.accountId then [LineOf(t, accounts[0])] else []) + JoinOne(t, accounts[1..])
  }

  /** The joined and filtered lines, in table order, before sorting. */
  function Joined(ts: seq<Txn>, accounts: seq<Account>, uid: int, accountArg: Option<string>, typeArg: Option<string>): seq<Line>
  {
    if ts == [] then []
    else
      (if Selected(ts[0], uid, accountArg, typeArg) then JoinOne(ts[0], accounts) else [])
      + Joined(ts[1..], accounts, uid, accountArg, typeArg)
  }

  /** Exactly the lines the query's `WHERE` and `JOIN` admit are listed. */
  lemma {:induction false} JoinedMembers(ts: seq<Txn>, accounts: seq<Account>, uid: int,
                                         accountArg: Option<string>, typeArg: Option<string>, x: Line)
    ensures x in Joined(ts, accounts, uid, accountArg, typeArg) <==>
              exists i, k :: 0 <= i < |ts| && 0 <= k < |accounts|
                             && Selected(ts[i], uid, accountArg, typeArg)
                             && accounts[k].id == ts[i].accountId && x == LineOf(ts[i], accounts[k])
  {
    if ts != [] {
      JoinedMembers(ts[1..], accounts, uid, accountArg, typeArg, x);
      assert forall i :: 1 <= i < |ts| ==> ts[i] == ts[1..][i - 1];
      if x in Joined(ts, accounts, uid, accountArg, typeArg) && x !in Joined(ts[1..], accounts, uid, accountArg, typeArg) {
        assert x in JoinOne(ts[0], accounts);
        var k :| 0 <= k < |accounts| && accounts[k].id == ts[0].accountId && x == LineOf(ts[0], accounts[k]);
        assert Selected(ts[0], uid, accountArg, typeArg);
      }
      if exists i, k :: 0 <= i < |ts| && 0 <= k < |accounts|
                        && Selected(ts[i], uid, accountArg, typeArg)
                        && accounts[k].id == ts[i].accountId && x == LineOf(ts[i], accounts[k]) {
        var i, k :| 0 <= i < |ts| && 0 <= k < |accounts|
                    && Selected(ts[i], uid, accountArg, typeArg)
                    && accounts[k].id == ts[i].accountId && x == LineOf(ts[i], accounts[k]);
        if i == 0 {
          assert x in JoinOne(ts[0], accounts);
        } else {
          assert ts[1..][i - 1] == ts[i];
        }
      }
    }
  }

  /** How many stored rows the `WHERE` clause admits. */
  function SelectedCount(ts: seq<Txn>, uid: int, accountArg: Option<string>, typeArg: Option<string>): nat
  {
    if ts == [] then 0
    else (if Selected(ts[0], uid, accountArg, typeArg) then 1 else 0) + SelectedCount(ts[1..], uid, accountArg, typeArg)
  }

  /** In a consistent store the join neither drops nor duplicates a row: one line per admitted row. */
  lemma {:induction false} JoinedLength(ts: seq<Txn>, accounts: seq<Account>, uid: int,
                                        accountArg: Option<string>, typeArg: Option<string>)
    requires DistinctIds(accounts)
    requires forall i :: 0 <= i < |ts| ==> Owns(accounts, ts[i].userId, ts[i].accountId)
    ensures |Joined(ts, accounts, uid, accountArg, typeArg)| == SelectedCount(ts, uid, accountArg, typeArg)
  {
    if ts != [] {
      var k :| 0 <= k < |accounts| && accounts[k].id == ts[0].accountId && accounts[k].userId == ts[0].userId;
      assert Listed(accounts, ts[0].accountId);
      assert forall i :: 1 <= i < |ts| ==> ts[i] == ts[1..][i - 1];
      JoinedLength(ts[1..], accounts, uid, accountArg, typeArg);
    }
  }

  /** Lines ordered by stored date, latest first: texts before numbers. */
  predicate Descending(lines: seq<Line>)
  {
    forall i, j :: 0 <= i < j < |lines| ==> ValueLe(lines[j].date, lines[i].date)
  }

  /** Places `x` before the first line that is not later than it. */
  function Insert(x: Line, lines: seq<Line>): (r: seq<Line>)
    ensures |r| == |lines| + 1
    ensures multiset(r) == multiset(lines) + multiset{x}
  {
    if lines == [] then [x]
    else if ValueLe(lines[0].date, x.date) then [x] + lines
    else
      assert lines == [lines[0]] + lines[1..];
      [lines[0]] + Insert(x, lines[1..])
  }

  /** A line no earlier than every line of a descending list can head it. */
  lemma ConsDescending(y: Line, tail: seq<Line>)
    requires Descending(tail)
    requires forall j :: 0 <= j < |tail| ==> ValueLe(tail[j].date, y.date)
    ensures Descending([y] + tail)
  {
    var r := [y] + tail;
    forall i, j | 0 <= i < j < |r|
      ensures ValueLe(r[j].date, r[i].date)
    {
      assert r[j] == tail[j - 1];
      if i > 0 {
        assert r[i] == tail[i - 1];
      }
    }
  }

  lemma {:induction false} InsertDescending(x: Line, lines: seq<Line>)
    requires Descending(lines)
    ensures Descending(Insert(x, lines))
  {
    if lines == [] {
    } else if ValueLe(lines[0].date, x.date) {
      forall j | 0 <= j < |lines|
        ensures ValueLe(lines[j].date, x.date)
      {
        if j > 0 {
          ValueLeTransitive(lines[j].date, lines[0].date, x.date);
        }
      }
      ConsDescending(x, lines);
    } else {
      var tail := Insert(x, lines[1..]);
      InsertDescending(x, lines[1..]);
      ValueLeTotal(lines[0].date, x.date);
      forall j | 0 <= j < |tail|
        ensures ValueLe(tail[j].date, lines[0].date)
      {
        assert tail[j] in multiset(tail);
        if tail[j] != x {
          assert tail[j] in multiset(lines[1..]);
          var m :| 0 <= m < |lines[1..]| && lines[1..][m] == tail[j];
          assert lines[m + 1] == tail[j];
        }
      }
      assert Descending(lines[1..]);
      ConsDescending(lines[0], tail);
    }
  }

  /** Insertion sort by stored date, latest first; rows with equal dates keep no particular promise. */
  function SortByDate(lines: seq<Line>): (r: seq<Line>)
    ensures |r| == |lines|
    ensures multiset(r) == multiset(lines)
  {
    if lines == [] then []
    else
      assert lines == [lines[0]] + lines[1..];
      Insert(lines[0], SortByDate(lines[1..]))
  }

  lemma {:induction false} SortDescending(lines: seq<Line>)
    ensures Descending(SortByDate(lines))
  {
    if lines != [] {
      SortDescending(lines[1..]);
      InsertDescending(lines[0], SortByDate(lines[1..]));
    }
  }

  function Min(a: nat, b: nat): nat
  {
    if a <= b then a else b
  }

  /**
   * The recent-transactions list of user `uid` with the dashboard's two
   * filter arguments: the latest `Limit` of the admitted lines, latest first.
   */
  function Latest(s: Store, uid: int, accountArg: Option<string>, typeArg: Option<string>): (r: seq<Line>)
    ensures |r| == Min(Limit, |Joined(s.txns, s.accounts, uid, accountArg, typeArg)|)
    ensures Descending(r)
    ensures multiset(r) <= multiset(Joined(s.txns, s.accounts, uid, accountArg, typeArg))
  {
    var all := Joined(s.txns, s.accounts, uid, accountArg, typeArg);
    var sorted := SortByDate(all);
    var n := Min(Limit, |sorted|);
    SortDescending(all);
    assert sorted == sorted[..n] + sorted[n..];
    assert multiset(sorted) == multiset(sorted[..n]) + multiset(sorted[n..]);
    sorted[..n]
  }

  /**
   * What the cut leaves out: the admitted lines that are not shown. Together
   * with the shown ones they are all the admitted lines, and none of them is
   * later than any shown line.
   */
  function Dropped(s: Store, uid: int, accountArg: Option<string>, typeArg: Option<string>): seq<Line>
  {
    var sorted := SortByDate(Joined(s.txns, s.accounts, uid, accountArg, typeArg));
    sorted[Min(Limit, |sorted|)..]
  }

  /** Cutting a latest-first list leaves nothing in the tail later than anything in the head. */
  lemma CutDescending(sorted: seq<Line>, n: nat)
    requires Descending(sorted) && n <= |sorted|
    ensures multiset(sorted[..n]) + multiset(sorted[n..]) == multiset(sorted)
    ensures forall i, j :: 0 <= i < n && 0 <= j < |sorted| - n ==> ValueLe(sorted[n..][j].date, sorted[..n][i].date)
  {
    assert sorted == sorted[..n] + sorted[n..];
    forall i, j | 0 <= i < n && 0 <= j < |sorted| - n
      ensures ValueLe(sorted[n..][j].date, sorted[..n][i].date)
    {
      assert sorted[..n][i] == sorted[i] && sorted[n..][j] == sorted[n + j];
    }
  }

  lemma LatestIsTop(s: Store, uid: int, accountArg: Option<string>, typeArg: Option<string>)
    ensures var shown := Latest(s, uid, accountArg, typeArg);
            var rest := Dropped(s, uid, accountArg, typeArg);
            && multiset(shown) + multiset(rest) == multiset(Joined(s.txns, s.accounts, uid, accountArg, typeArg))
            && (|rest| > 0 ==> |shown| == Limit)
            && forall i, j :: 0 <= i < |shown| && 0 <= j < |rest| ==> ValueLe(rest[j].date, shown[i].date)
  {
    var all := Joined(s.txns, s.accounts, uid, accountArg, typeArg);
    var sorted := SortByDate(all);
    var n := Min(Limit, |sorted|);
    SortDescending(all);
    CutDescending(sorted, n);
    assert Latest(s, uid, accountArg, typeArg) == sorted[..n];
    assert Dropped(s, uid, accountArg, typeArg) == sorted[n..];
  }

  /** A user without rows sees an empty list, whatever the filter arguments. */
  lemma {:induction false} NoRowsNoLines(ts: seq<Txn>, accounts: seq<Account>, uid: int,
                                         accountArg: Option<string>, typeArg: Option<string>)
    requires forall i :: 0 <= i < |ts| ==> ts[i].userId != uid
    ensures Joined(ts, accounts, uid, accountArg, typeArg) == []
  {
    if ts != [] {
      assert forall i :: 1 <= i < |ts| ==> ts[i] == ts[1..][i - 1];
      NoRowsNoLines(ts[1..], accounts, uid, accountArg, typeArg);
    }
  }

  /**
   * In a latest-first list, a line whose date is stored as a number comes
   * after every line whose date is stored as text.
   */
  lemma NumbersListedLast(lines: seq<Line>)
    requires Descending(lines)
    ensures forall i, j :: 0 <= i < j < |lines| && lines[i].date.Num? ==> lines[j].date.Num?
  {
    forall i, j | 0 <= i < j < |lines| && lines[i].date.Num?
      ensures lines[j].date.Num?
    {
      assert ValueLe(lines[j].date, lines[i].date);
    }
  }
}
