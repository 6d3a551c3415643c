/**
 * The dashboard's sums of transaction amounts: a WHERE clause over ledger rows and the sum of the amounts of
 * the rows it selects, which is 0, never absent, when it selects none.
 */
module Aggregate {
  import opened Text
  import opened Storage
  import opened Schema

  /** The date part of a WHERE clause; its bounds are the texts bound to the query's parameters. */
  datatype DateFilter = AnyDate | OnDate(day: string) | Between(lo: string, hi: string)

  /** A selection of transaction rows: one user's rows of one type, optionally on one account and within a date filter. */
  datatype Query = Query(userId: int, kind: Kind, account: Option<int>, dates: DateFilter)

  /**
   * Whether a stored date passes the date part of a WHERE clause. Compared
   * with the NUMERIC-affinity column, a bound text takes that affinity too,
   * so both sides are stored values.
   */
  predicate DateMatches(f: DateFilter, date: Value)
  {
    match f
    case AnyDate => true
    case OnDate(day) => date == Affinity(day)
    case Between(lo, hi) => ValueLe(Affinity(lo), date) && ValueLe(date, Affinity(hi))
  }

  predicate Matches(q: Query, t: Txn)
  {
    && t.userId == q.userId
    && t.kind == q.kind
    && (q.account.None? || t.accountId == q.account.value)
    && DateMatches(q.dates, t.date)
  }

  predicate AllPositive(ts: seq<Txn>)
  {
    forall i :: 0 <= i < |ts| ==> ts[i].amount > 0.0
  }

  /** The amount a row contributes to the sum for `q`. */
  function Contribution(q: Query, t: Txn): real
  {
    if Matches(q, t) then t.amount else 0.0
  }

  /**
   * The sum of the amounts of the rows `q` selects, with 0 standing for an empty sum. The sum is 0 when
   * no row matches; over positive amounts it is positive exactly when some
   * row matches.
   */
  function Sum(ts: seq<Txn>, q: Query): (r: real)
    ensures (forall i :: 0 <= i < |ts| ==> !Matches(q, ts[i])) ==> r == 0.0
    ensures AllPositive(ts) ==> (r > 0.0 <==> exists i :: 0 <= i < |ts| && Matches(q, ts[i]))
    ensures AllPositive(ts) ==> r >= 0.0
  {
    if ts == [] then 0.0
    else
      var rest := Sum(ts[1..], q);
      assert forall i :: 1 <= i < |ts| ==> ts[i] == ts[1..][i - 1];
      Contribution(q, ts[0]) + rest
  }

  lemma {:induction false} SumConcat(a: seq<Txn>, b: seq<Txn>, q: Query)
    ensures Sum(a + b, q) == Sum(a, q) + Sum(b, q)
  {
    if a == [] {
      assert a + b == b;
    } else {
      assert (a + b)[1..] == a[1..] + b;
      SumConcat(a[1..], b, q);
    }
  }

  /** Appending one row adds exactly that row's contribution. */
  lemma SumAppend(ts: seq<Txn>, t: Txn, q: Query)
    ensures Sum(ts + [t], q) == Sum(ts, q) + Contribution(q, t)
  {
    SumConcat(ts, [t], q);
    assert Sum([t], q) == Contribution(q, t) + Sum([], q);
  }

  /** Taking row `i` out of the table removes exactly its contribution. */
  lemma SumRemove(b: seq<Txn>, i: int, q: Query)
    requires 0 <= i < |b|
    ensures Sum(b, q) == Contribution(q, b[i]) + Sum(b[..i] + b[i + 1..], q)
  {
    assert b == b[..i] + ([b[i]] + b[i + 1..]);
    SumConcat(b[..i], [b[i]] + b[i + 1..], q);
    assert ([b[i]] + b[i + 1..])[1..] == b[i + 1..];
    SumConcat(b[..i], b[i + 1..], q);
  }

  lemma MultisetRemove(a: seq<Txn>, b: seq<Txn>, i: int)
    requires a != [] && 0 <= i < |b| && b[i] == a[0]
    requires multiset(a) == multiset(b)
    ensures multiset(a[1..]) == multiset(b[..i] + b[i + 1..])
  {
    assert a == [a[0]] + a[1..];
    assert b == b[..i] + [b[i]] + b[i + 1..];
    assert multiset(a) == multiset{a[0]} + multiset(a[1..]);
    assert multiset(b) == multiset(b[..i]) + multiset{b[i]} + multiset(b[i + 1..]);
    var rest := b[..i] + b[i + 1..];
    assert multiset(rest) == multiset(b[..i]) + multiset(b[i + 1..]);
    forall x
      ensures multiset(a[1..])[x] == multiset(rest)[x]
    {
      assert multiset(a)[x] == multiset{a[0]}[x] + multiset(a[1..])[x];
      assert multiset(b)[x] == multiset(b[..i])[x] + multiset{b[i]}[x] + multiset(b[i + 1..])[x];
      assert multiset(a)[x] == multiset(b)[x];
    }
  }

  /**
   * A SQL aggregate does not depend on row order: two tables holding the same
   * rows give the same sum.
   */
  lemma {:induction false} SumPermutation(a: seq<Txn>, b: seq<Txn>, q: Query)
    requires multiset(a) == multiset(b)
    ensures Sum(a, q) == Sum(b, q)
  {
    if a != [] {
      assert a[0] in multiset(b);
      var i :| 0 <= i < |b| && b[i] == a[0];
      MultisetRemove(a, b, i);
      SumPermutation(a[1..], b[..i] + b[i + 1..], q);
      SumRemove(b, i, q);
    } else {
      assert b == [];
    }
  }

  /**
   * A narrower WHERE clause never sums to more than a wider one, when amounts
   * are positive.
   */
  lemma {:induction false} SumMonotone(ts: seq<Txn>, narrow: Query, wide: Query)
    requires AllPositive(ts)
    requires forall t :: Matches(narrow, t) ==> Matches(wide, t)
    ensures Sum(ts, narrow) <= Sum(ts, wide)
  {
    if ts != [] {
      assert AllPositive(ts[1..]) by {
        assert forall i :: 1 <= i < |ts| ==> ts[i] == ts[1..][i - 1];
      }
      SumMonotone(ts[1..], narrow, wide);
    }
  }

  /** Rows of other users never contribute: filtering by user first changes nothing. */
  function RowsOf(ts: seq<Txn>, uid: int): (r: seq<Txn>)
    ensures forall i :: 0 <= i < |r| ==> r[i].userId == uid && r[i] in ts
    ensures forall i :: 0 <= i < |ts| && ts[i].userId == uid ==> ts[i] in r
  {
    if ts == [] then []
    else
      var rest := RowsOf(ts[1..], uid);
      assert forall i :: 1 <= i < |ts| ==> ts[i] == ts[1..][i - 1];
      if ts[0].userId == uid then [ts[0]] + rest else rest
  }

  lemma {:induction false} SumRowsOf(ts: seq<Txn>, q: Query)
    ensures Sum(RowsOf(ts, q.userId), q) == Sum(ts, q)
  {
    if ts != [] {
      SumRowsOf(ts[1..], q);
      if ts[0].userId == q.userId {
        var r := RowsOf(ts, q.userId);
        assert r[1..] == RowsOf(ts[1..], q.userId);
      }
    }
  }
}
