/**
 * Posting the splits of a transaction: which accounts a request may post
 * to, the split rows written for it, and why writing them, deleting them
 * or changing their status keeps every stored transaction balanced.
 */
module Ledger {
  import opened Wrappers
  import opened Uuid
  import opened Tables
  import opened Dates
  import opened Store
  import opened SplitValidation

  // ------------------------------------------------------ account lookup

  /** The ids in the `inList` of the account query. */
  function AccountIds(ps: seq<Posting>): set<Id> {
    set i | 0 <= i < |ps| :: ps[i].account
  }

  /** The rows the query `id in list and user_id = owner` returns, by id. */
  function Matched(accounts: map<Id, AccountRow>, owner: Id, ps: seq<Posting>): set<Id> {
    set a | a in AccountIds(ps) && a in accounts && accounts[a].owner == owner
  }

  predicate DistinctAccounts(ps: seq<Posting>) {
    forall i, j :: 0 <= i < j < |ps| ==> ps[i].account != ps[j].account
  }

  predicate AllOwned(accounts: map<Id, AccountRow>, owner: Id, ps: seq<Posting>) {
    forall i :: 0 <= i < |ps| ==> ps[i].account in accounts && accounts[ps[i].account].owner == owner
  }

  lemma AccountIdsSnoc(ps: seq<Posting>)
    requires ps != []
    ensures AccountIds(ps) == AccountIds(ps[..|ps| - 1]) + {ps[|ps| - 1].account}
  {
    var n := |ps| - 1;
    forall a | a in AccountIds(ps)
      ensures a in AccountIds(ps[..n]) + {ps[n].account}
    {
      var i :| 0 <= i < |ps| && ps[i].account == a;
      if i < n {
        assert ps[..n][i] == ps[i];
      }
    }
    forall a | a in AccountIds(ps[..n])
      ensures a in AccountIds(ps)
    {
      var i :| 0 <= i < n && ps[..n][i].account == a;
      assert ps[i] == ps[..n][i];
    }
  }

  /** A new last account that no earlier posting names keeps the accounts distinct. */
  lemma DistinctSnoc(ps: seq<Posting>)
    requires ps != [] && DistinctAccounts(ps[..|ps| - 1]) && ps[|ps| - 1].account !in AccountIds(ps[..|ps| - 1])
    ensures DistinctAccounts(ps)
  {
    var n := |ps| - 1;
    var init := ps[..n];
    forall i, j | 0 <= i < j < |ps|
      ensures ps[i].account != ps[j].account
    {
      assert init[i] == ps[i];
      if j < n {
        assert init[j] == ps[j];
      } else {
        assert init[i].account in AccountIds(init);
      }
    }
  }

  /** A list of ids has as many distinct ids as entries exactly when no id repeats. */
  lemma {:induction false} AccountIdsCount(ps: seq<Posting>)
    ensures |AccountIds(ps)| <= |ps|
    ensures |AccountIds(ps)| == |ps| <==> DistinctAccounts(ps)
  {
    if ps != [] {
      var n := |ps| - 1;
      var init := ps[..n];
      AccountIdsSnoc(ps);
      AccountIdsCount(init);
      if ps[n].account in AccountIds(init) {
        var i :| 0 <= i < n && init[i].account == ps[n].account;
        assert ps[i].account == ps[n].account;
      } else if DistinctAccounts(init) {
        DistinctSnoc(ps);
      } else {
        var i, j :| 0 <= i < j < n && init[i].account == init[j].account;
        assert ps[i] == init[i] && ps[j] == init[j];
      }
    }
  }

  /**
   * The account check passes exactly when every split's account belongs
   * to the user and no account appears twice: two splits on one account
   * make the query return fewer rows than there are splits.
   */
  lemma MatchedCount(accounts: map<Id, AccountRow>, owner: Id, ps: seq<Posting>)
    ensures |Matched(accounts, owner, ps)| == |ps| <==> AllOwned(accounts, owner, ps) && DistinctAccounts(ps)
  {
    var ids := AccountIds(ps);
    var m := Matched(accounts, owner, ps);
    AccountIdsCount(ps);
    assert m <= ids;
    if AllOwned(accounts, owner, ps) {
      forall a | a in ids
        ensures a in m
      {
        var i :| 0 <= i < |ps| && ps[i].account == a;
      }
      assert m == ids;
    } else {
      var i :| 0 <= i < |ps| && !(ps[i].account in accounts && accounts[ps[i].account].owner == owner);
      ProperSubset(m, ids, ps[i].account);
    }
  }

  lemma ProperSubset<T>(m: set<T>, ids: set<T>, x: T)
    requires m <= ids && x in ids && x !in m
    ensures |m| < |ids|
  {
    var rest := ids - m;
    assert ids == m + rest && m * rest == {};
    assert x in rest;
  }

  /** The names of the placeholder accounts among the splits' accounts. */
  function PlaceholderNames(accounts: map<Id, AccountRow>, ps: seq<Posting>): (names: multiset<string>)
    requires forall i :: 0 <= i < |ps| ==> ps[i].account in accounts
    ensures names == multiset{} <==> forall i :: 0 <= i < |ps| ==> !accounts[ps[i].account].placeholder
  {
    if ps == [] then multiset{}
    else
      var n := |ps| - 1;
      var a := accounts[ps[n].account];
      var init := PlaceholderNames(accounts, ps[..n]);
      assert forall i :: 0 <= i < n ==> ps[..n][i] == ps[i];
      init + if a.placeholder then multiset{a.name} else multiset{}
  }

  // ----------------------------------------------------------- new splits

  /** The status a split is written with: the requested one read as a `ReconcileStatus`, or `NEW`. */
  function StatusOf(p: Posting): Option<ReconcileStatus> {
    if p.reconcileStatus.Some? then ReadStatus(p.reconcileStatus.value) else Some(DefaultStatus)
  }

  /** Every split can be written: its status reads and its amount fits the column. */
  predicate Insertable(ps: seq<Posting>) {
    forall i :: 0 <= i < |ps| ==> StatusOf(ps[i]).Some? && FitsColumn(Units(ps[i]))
  }

  function SplitRowOf(p: Posting, id: Id, t: Id, now: Instant): SplitRow
    requires StatusOf(p).Some?
  {
    SplitRow(id, t, p.account, Units(p), p.currency, p.memo, StatusOf(p).value, now)
  }

  /** The rows `Splits.insert` writes for transaction `t`, one per posting, in request order. */
  function NewSplits(ps: seq<Posting>, ids: seq<Id>, t: Id, now: Instant): (rows: seq<SplitRow>)
    requires |ids| == |ps| && Insertable(ps)
    ensures |rows| == |ps|
    ensures forall i :: 0 <= i < |ps| ==> rows[i] == SplitRowOf(ps[i], ids[i], t, now)
  {
    if ps == [] then []
    else
      var n := |ps| - 1;
      assert Insertable(ps[..n]) by {
        forall i | 0 <= i < n
          ensures StatusOf(ps[..n][i]).Some? && FitsColumn(Units(ps[..n][i]))
        {
          assert ps[..n][i] == ps[i];
        }
      }
      NewSplits(ps[..n], ids[..n], t, now) + [SplitRowOf(ps[n], ids[n], t, now)]
  }

  /** The new rows of `t` hold, in each currency, the stored sum of the postings in it. */
  lemma {:induction false} NewSplitSums(ps: seq<Posting>, ids: seq<Id>, t: Id, now: Instant, c: Currency)
    requires |ids| == |ps| && Insertable(ps)
    ensures StoredSum(NewSplits(ps, ids, t, now), t, c) == StoredGroupSum(ps, c)
    ensures SplitCount(NewSplits(ps, ids, t, now), t) == |ps|
  {
    if ps != [] {
      var n := |ps| - 1;
      var rows := NewSplits(ps, ids, t, now);
      assert rows[..n] == NewSplits(ps[..n], ids[..n], t, now);
      NewSplitSums(ps[..n], ids[..n], t, now, c);
    }
  }

  // ------------------------------------------------------- ledger frames

  lemma DistinctAppend(a: seq<SplitRow>, b: seq<SplitRow>)
    requires DistinctSplitIds(a) && DistinctSplitIds(b)
    requires forall i, j :: 0 <= i < |a| && 0 <= j < |b| ==> a[i].id != b[j].id
    ensures DistinctSplitIds(a + b)
  {
  }

  /** Dropping the splits of one transaction keeps the remaining ids distinct. */
  lemma {:induction false} WithoutDistinct(splits: seq<SplitRow>, t: Id)
    requires DistinctSplitIds(splits)
    ensures DistinctSplitIds(Without(splits, t))
  {
    if splits != [] {
      var n := |splits| - 1;
      var init := splits[..n];
      assert DistinctSplitIds(init) by {
        forall i, j | 0 <= i < j < n
          ensures init[i].id != init[j].id
        {
          assert init[i] == splits[i] && init[j] == splits[j];
        }
      }
      WithoutDistinct(init, t);
      var w := Without(init, t);
      if splits[n].txn != t {
        forall i | 0 <= i < |w|
          ensures w[i].id != splits[n].id
        {
          var k :| 0 <= k < n && init[k] == w[i];
          assert splits[k] == init[k];
        }
        DistinctAppend(w, [splits[n]]);
      } else {
        assert w + [] == w;
      }
    }
  }

  /** Deleting a transaction with all its splits keeps the ledger valid. */
  lemma DropKeepsLedger(accounts: map<Id, AccountRow>, txns: map<Id, TxnRow>, splits: seq<SplitRow>, t: Id)
    requires LedgerValid(accounts, txns, splits)
    ensures LedgerValid(accounts, txns - {t}, Without(splits, t))
  {
    var txns' := txns - {t};
    var rest := Without(splits, t);
    forall i | 0 <= i < |rest|
      ensures SplitFits(accounts, txns', rest[i])
    {
      var k :| 0 <= k < |splits| && splits[k] == rest[i];
      assert SplitFits(accounts, txns, splits[k]);
    }
    WithoutDistinct(splits, t);
    forall u, c | u in txns'
      ensures StoredSum(rest, u, c) == 0
    {
      SumsWithout(splits, t, u, c);
    }
    forall u | u in txns'
      ensures SplitCount(rest, u) >= 2
    {
      SumsWithout(splits, t, u, USD);
    }
  }

  /** What the new rows of transaction `row` must satisfy for the ledger to stay valid. */
  ghost predicate FreshSplits(accounts: map<Id, AccountRow>, splits: seq<SplitRow>, row: TxnRow, rows: seq<SplitRow>) {
    (forall i :: 0 <= i < |rows| ==>
       rows[i].txn == row.id && rows[i].account in accounts
       && accounts[rows[i].account].owner == row.owner && !accounts[rows[i].account].placeholder
       && FitsColumn(rows[i].amount))
    && DistinctSplitIds(rows)
    && (forall i, j :: 0 <= i < |splits| && 0 <= j < |rows| ==> splits[i].id != rows[j].id)
    && (forall c :: StoredSum(rows, row.id, c) == 0)
    && SplitCount(rows, row.id) >= 2
  }

  /** Writing a new transaction with balanced rows of its own keeps the ledger valid. */
  lemma PostKeepsLedger(accounts: map<Id, AccountRow>, txns: map<Id, TxnRow>, splits: seq<SplitRow>,
                        row: TxnRow, rows: seq<SplitRow>)
    requires LedgerValid(accounts, txns, splits)
    requires row.id !in txns && Valid(row.date) && FourDigitYear(row.date)
    requires FreshSplits(accounts, splits, row, rows)
    ensures LedgerValid(accounts, txns[row.id := row], splits + rows)
  {
    PostFits(accounts, txns, splits, row, rows);
    DistinctAppend(splits, rows);
    PostBalanced(accounts, txns, splits, row, rows);
  }

  lemma PostFits(accounts: map<Id, AccountRow>, txns: map<Id, TxnRow>, splits: seq<SplitRow>,
                 row: TxnRow, rows: seq<SplitRow>)
    requires LedgerValid(accounts, txns, splits)
    requires row.id !in txns && FreshSplits(accounts, splits, row, rows)
    ensures forall i :: 0 <= i < |splits + rows| ==> SplitFits(accounts, txns[row.id := row], (splits + rows)[i])
  {
    var txns' := txns[row.id := row];
    var all := splits + rows;
    forall i | 0 <= i < |all|
      ensures SplitFits(accounts, txns', all[i])
    {
      if i < |splits| {
        assert all[i] == splits[i] && SplitFits(accounts, txns, splits[i]);
      } else {
        assert all[i] == rows[i - |splits|];
      }
    }
  }

  lemma PostBalanced(accounts: map<Id, AccountRow>, txns: map<Id, TxnRow>, splits: seq<SplitRow>,
                     row: TxnRow, rows: seq<SplitRow>)
    requires LedgerValid(accounts, txns, splits)
    requires row.id !in txns && FreshSplits(accounts, splits, row, rows)
    ensures Balanced(txns[row.id := row], splits + rows)
  {
    var txns' := txns[row.id := row];
    var all := splits + rows;
    forall i | 0 <= i < |splits|
      ensures splits[i].txn != row.id
    {
      assert SplitFits(accounts, txns, splits[i]);
    }
    forall u, c | u in txns'
      ensures StoredSum(all, u, c) == 0 && SplitCount(all, u) >= 2
    {
      SumsAppend(splits, rows, u, c, u);
      if u == row.id {
        SumsOther(splits, u, c);
      } else {
        SumsOther(rows, u, c);
      }
    }
    forall u | u in txns'
      ensures SplitCount(all, u) >= 2
    {
      assert StoredSum(all, u, USD) == 0 && SplitCount(all, u) >= 2;
    }
  }

  /** Rows of one transaction, built from balanced postings, are fresh splits for it. */
  lemma NewSplitsFresh(accounts: map<Id, AccountRow>, splits: seq<SplitRow>, row: TxnRow,
                       ps: seq<Posting>, ids: seq<Id>, now: Instant)
    requires |ids| == |ps| >= 2 && Insertable(ps)
    requires AllOwned(accounts, row.owner, ps)
    requires forall i :: 0 <= i < |ps| ==> !accounts[ps[i].account].placeholder
    requires forall c :: StoredGroupSum(ps, c) == 0
    requires forall i, j :: 0 <= i < j < |ids| ==> ids[i] != ids[j]
    requires forall i, j :: 0 <= i < |splits| && 0 <= j < |ids| ==> splits[i].id != ids[j]
    ensures FreshSplits(accounts, splits, row, NewSplits(ps, ids, row.id, now))
  {
    var rows := NewSplits(ps, ids, row.id, now);
    forall c
      ensures StoredSum(rows, row.id, c) == 0
    {
      NewSplitSums(ps, ids, row.id, now, c);
    }
    NewSplitSums(ps, ids, row.id, now, USD);
  }

  // ------------------------------------------------------ status changes

  /** Two split tables that differ only in reconcile statuses. */
  ghost predicate SameButStatus(a: seq<SplitRow>, b: seq<SplitRow>) {
    |a| == |b| && forall i :: 0 <= i < |a| ==> b[i] == a[i].(status := b[i].status)
  }

  lemma {:induction false} StatusKeepsSums(a: seq<SplitRow>, b: seq<SplitRow>, t: Id, c: Currency, acc: Id)
    requires SameButStatus(a, b)
    ensures StoredSum(b, t, c) == StoredSum(a, t, c)
    ensures SplitCount(b, t) == SplitCount(a, t)
    ensures AccountSum(b, acc) == AccountSum(a, acc)
  {
    if a != [] {
      var n := |a| - 1;
      assert SameButStatus(a[..n], b[..n]) by {
        forall i | 0 <= i < n
          ensures b[..n][i] == a[..n][i].(status := b[..n][i].status)
        {
          assert b[..n][i] == b[i] && a[..n][i] == a[i];
        }
      }
      StatusKeepsSums(a[..n], b[..n], t, c, acc);
    }
  }

  /** Changing a split's reconcile status keeps the ledger valid. */
  lemma StatusKeepsLedger(accounts: map<Id, AccountRow>, txns: map<Id, TxnRow>, splits: seq<SplitRow>,
                          i: nat, st: ReconcileStatus)
    requires LedgerValid(accounts, txns, splits) && i < |splits|
    ensures LedgerValid(accounts, txns, splits[i := splits[i].(status := st)])
  {
    var splits' := splits[i := splits[i].(status := st)];
    assert SameButStatus(splits, splits');
    forall k | 0 <= k < |splits'|
      ensures SplitFits(accounts, txns, splits'[k])
    {
      assert SplitFits(accounts, txns, splits[k]);
    }
    forall u, c | u in txns
      ensures StoredSum(splits', u, c) == 0 && SplitCount(splits', u) >= 2
    {
      StatusKeepsSums(splits, splits', u, c, u);
    }
    forall u | u in txns
      ensures SplitCount(splits', u) >= 2
    {
      assert StoredSum(splits', u, USD) == 0 && SplitCount(splits', u) >= 2;
    }
  }
}
