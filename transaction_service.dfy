/**
 * The transaction service: recording a transaction with its splits,
 * reading it back, replacing its fields and splits, deleting, voiding
 * and restoring it, and setting the reconcile status of one split.
 *
 * Every operation runs in one database transaction: when it fails, the
 * database is left as it was. New ids and the clock reading are inputs.
 * The service checks splits with the corrected rule `ValidateStoredSplits`
 * in place of `validateSplits` as written (`ValidateSplits`), so every
 * stored transaction balances in the amounts the database holds. The two
 * rules agree unless an amount has more than four decimals (`StoredAgrees`).
 */
module TransactionService {
  import opened Wrappers
  import opened Text
  import opened Uuid
  import opened Tables
  import opened Errors
  import opened Dates
  import opened Store
  import opened SplitValidation
  import opened Ledger

  datatype UpdateTransactionRequest = UpdateTransactionRequest(
    date: Option<string>,
    num: Option<string>,
    description: Option<string>,
    notes: Option<string>,
    splits: Option<seq<SplitRequest>>)

  /** A split as the response lists it: the row and its account's full name. */
  datatype SplitView = SplitView(split: SplitRow, accountName: string)

  /** `getTransactionById`: the transaction row and its splits. */
  datatype TransactionView = TransactionView(txn: TxnRow, splits: seq<SplitView>)

  // ---------------------------------------------------------------- views

  /** `(Splits innerJoin Accounts) where transactionId = t`, in table order. */
  function Joined(accounts: map<Id, AccountRow>, splits: seq<SplitRow>, t: Id): seq<SplitView> {
    if splits == [] then []
    else
      var n := |splits| - 1;
      var s := splits[n];
      Joined(accounts, splits[..n], t)
      + if s.txn == t && s.account in accounts then [SplitView(s, accounts[s.account].fullName)] else []
  }

  /** The view lists a split exactly when it belongs to `t` and its account exists, under that account's full name. */
  lemma {:induction false} JoinedMembers(accounts: map<Id, AccountRow>, splits: seq<SplitRow>, t: Id)
    ensures forall v :: v in Joined(accounts, splits, t) <==>
      v.split in splits && v.split.txn == t && v.split.account in accounts
      && v.accountName == accounts[v.split.account].fullName
  {
    if splits != [] {
      var n := |splits| - 1;
      assert splits == splits[..n] + [splits[n]];
      JoinedMembers(accounts, splits[..n], t);
    }
  }

  lemma {:induction false} JoinedAppend(accounts: map<Id, AccountRow>, a: seq<SplitRow>, b: seq<SplitRow>, t: Id)
    ensures Joined(accounts, a + b, t) == Joined(accounts, a, t) + Joined(accounts, b, t)
    decreases |b|
  {
    if b == [] {
      assert a + b == a;
    } else {
      var n := |b| - 1;
      assert (a + b)[..|a + b| - 1] == a + b[..n];
      JoinedAppend(accounts, a, b[..n], t);
    }
  }

  lemma {:induction false} JoinedNone(accounts: map<Id, AccountRow>, splits: seq<SplitRow>, t: Id)
    requires forall i :: 0 <= i < |splits| ==> splits[i].txn != t
    ensures Joined(accounts, splits, t) == []
  {
    if splits != [] {
      JoinedNone(accounts, splits[..|splits| - 1], t);
    }
  }

  /** Rows that all belong to `t` and to known accounts are listed one for one, in order. */
  lemma {:induction false} JoinedAll(accounts: map<Id, AccountRow>, rows: seq<SplitRow>, t: Id)
    requires forall i :: 0 <= i < |rows| ==> rows[i].txn == t && rows[i].account in accounts
    ensures var r := Joined(accounts, rows, t);
      |r| == |rows| && forall i :: 0 <= i < |rows| ==> r[i] == SplitView(rows[i], accounts[rows[i].account].fullName)
  {
    if rows != [] {
      var n := |rows| - 1;
      var init := rows[..n];
      assert forall i :: 0 <= i < n ==> init[i] == rows[i];
      JoinedAll(accounts, init, t);
      var last := SplitView(rows[n], accounts[rows[n].account].fullName);
      assert Joined(accounts, rows, t) == Joined(accounts, init, t) + [last];
    }
  }

  function View(accounts: map<Id, AccountRow>, txns: map<Id, TxnRow>, splits: seq<SplitRow>, t: Id): TransactionView
    requires t in txns
  {
    TransactionView(txns[t], Joined(accounts, splits, t))
  }

  /** The lookup `id = ? and user_id = ?` finds a transaction. */
  predicate OwnedTxn(txns: map<Id, TxnRow>, t: Id, owner: Id) {
    t in txns && txns[t].owner == owner
  }

  // -------------------------------------------------------------- posting

  /**
   * The checks made against the database before the rows are written:
   * the account query must return one row per split, no account may be a
   * placeholder, and then every split must be writable (its status a
   * `ReconcileStatus` name, its amount within the column).
   */
  function PostingFailure(accounts: map<Id, AccountRow>, owner: Id, ps: seq<Posting>): (r: Option<Failure>)
    ensures r == Some(AccountsNotFound) <==> !(AllOwned(accounts, owner, ps) && DistinctAccounts(ps))
    ensures r.None? <==>
      AllOwned(accounts, owner, ps) && DistinctAccounts(ps)
      && (forall i :: 0 <= i < |ps| ==> !accounts[ps[i].account].placeholder)
      && Insertable(ps)
    ensures r.Some? && r.value.PlaceholderAccounts? ==>
      AllOwned(accounts, owner, ps) && r.value.names == PlaceholderNames(accounts, ps) && r.value.names != multiset{}
    ensures r.Some? ==> r == Some(AccountsNotFound) || r.value.PlaceholderAccounts? || r == Some(Unexpected)
  {
    MatchedCount(accounts, owner, ps);
    if |Matched(accounts, owner, ps)| != |ps| then Some(AccountsNotFound)
    else if PlaceholderNames(accounts, ps) != multiset{} then Some(PlaceholderAccounts(PlaceholderNames(accounts, ps)))
    else if !Insertable(ps) then Some(Unexpected)
    else None
  }

  // --------------------------------------------------------------- create

  /** Replaces the transactions and splits tables with a valid new content. */
  method Write(db: Database, txns: map<Id, TxnRow>, splits: seq<SplitRow>)
    requires AccountsValid(db.accounts) && UsersValid(db.users)
    requires LedgerValid(db.accounts, txns, splits)
    modifies db
    ensures db.Valid()
    ensures db.transactions == txns && db.splits == splits
    ensures db.accounts == old(db.accounts) && db.users == old(db.users)
  {
    db.transactions := txns;
    db.splits := splits;
  }

  /** Why `createTransaction` refuses: the request checks first, then the database checks. */
  function CreateFailure(accounts: map<Id, AccountRow>, owner: Id, req: CreateTransactionRequest): (r: Option<Failure>)
    ensures ValidateTransaction(req).Some? ==> r == ValidateTransaction(req)
    ensures ValidateTransaction(req).None? ==>
      AllWellFormed(req.splits) && r == PostingFailure(accounts, owner, Postings(req.splits))
  {
    var v := ValidateTransaction(req);
    if v.Some? then v
    else PostingFailure(accounts, owner, Postings(req.splits))
  }

  function NewTxnRow(req: CreateTransactionRequest, id: Id, owner: Id, now: Instant): TxnRow
    requires ParseDate(req.date).Some?
  {
    TxnRow(id, owner, ParseDate(req.date).value, req.num, req.description, req.notes, false, None, now, now)
  }

  /** Fresh ids for the new splits: one per split, pairwise distinct, unused in the table. */
  predicate FreshIds(splits: seq<SplitRow>, ids: seq<Id>) {
    (forall i, j :: 0 <= i < j < |ids| ==> ids[i] != ids[j])
    && (forall i, j :: 0 <= i < |splits| && 0 <= j < |ids| ==> splits[i].id != ids[j])
  }

  /**
   * `createTransaction`: writes one transaction row, not voided, and one
   * split row per requested split, in request order.
   */
  method CreateTransaction(db: Database, userId: Id, req: CreateTransactionRequest,
                           newId: Id, splitIds: seq<Id>, now: Instant)
    returns (r: Result<TransactionView>)
    requires db.Valid()
    requires newId !in db.transactions
    requires |splitIds| == |req.splits| && FreshIds(db.splits, splitIds)
    modifies db
    ensures db.Valid()
    ensures r.Err? <==> CreateFailure(old(db.accounts), userId, req).Some?
    ensures r.Err? ==> Some(r.failure) == CreateFailure(old(db.accounts), userId, req) && unchanged(db)
    ensures r.Ok? ==>
      && AllWellFormed(req.splits) && Insertable(Postings(req.splits)) && ParseDate(req.date).Some?
      && db.transactions == old(db.transactions)[newId := NewTxnRow(req, newId, userId, now)]
      && db.splits == old(db.splits) + NewSplits(Postings(req.splits), splitIds, newId, now)
      && r.value == View(db.accounts, db.transactions, db.splits, newId)
    ensures db.accounts == old(db.accounts) && db.users == old(db.users)
  {
    var refused := CreateFailure(db.accounts, userId, req);
    if refused.Some? {
      return Err(refused.value);
    }
    var ps := Postings(req.splits);
    var row := NewTxnRow(req, newId, userId, now);
    var rows := NewSplits(ps, splitIds, newId, now);
    CreateKeepsLedger(db.accounts, db.transactions, db.splits, userId, req, newId, splitIds, now);
    Write(db, db.transactions[newId := row], db.splits + rows);
    r := Ok(View(db.accounts, db.transactions, db.splits, newId));
  }

  lemma CreateKeepsLedger(accounts: map<Id, AccountRow>, txns: map<Id, TxnRow>, splits: seq<SplitRow>,
                          owner: Id, req: CreateTransactionRequest, newId: Id, splitIds: seq<Id>, now: Instant)
    requires LedgerValid(accounts, txns, splits) && newId !in txns
    requires |splitIds| == |req.splits| && FreshIds(splits, splitIds)
    requires CreateFailure(accounts, owner, req).None?
    ensures AllWellFormed(req.splits) && Insertable(Postings(req.splits)) && ParseDate(req.date).Some?
    ensures LedgerValid(accounts, txns[newId := NewTxnRow(req, newId, owner, now)],
                        splits + NewSplits(Postings(req.splits), splitIds, newId, now))
  {
    var ps := Postings(req.splits);
    var row := NewTxnRow(req, newId, owner, now);
    forall c
      ensures StoredGroupSum(ps, c) == 0
    {
    }
    NewSplitsFresh(accounts, splits, row, ps, splitIds, now);
    PostKeepsLedger(accounts, txns, splits, row, NewSplits(ps, splitIds, newId, now));
  }

  /** The response to a create lists exactly the new splits, in request order, with their accounts' full names. */
  lemma CreatedView(accounts: map<Id, AccountRow>, splits: seq<SplitRow>, t: Id, rows: seq<SplitRow>)
    requires forall i :: 0 <= i < |splits| ==> splits[i].txn != t
    requires forall i :: 0 <= i < |rows| ==> rows[i].txn == t && rows[i].account in accounts
    ensures var v := Joined(accounts, splits + rows, t);
      |v| == |rows| && forall i :: 0 <= i < |rows| ==> v[i] == SplitView(rows[i], accounts[rows[i].account].fullName)
  {
    JoinedAppend(accounts, splits, rows, t);
    JoinedNone(accounts, splits, t);
    var own := Joined(accounts, rows, t);
    assert Joined(accounts, splits + rows, t) == [] + own;
    assert [] + own == own;
    JoinedAll(accounts, rows, t);
  }

  // ------------------------------------------------------------------ get

  /** `getTransaction`: the user's own transaction, or NotFound. */
  method GetTransaction(db: Database, userId: Id, transactionId: string) returns (r: Result<TransactionView>)
    ensures ParseUuid(transactionId).None? ==> r == Err(Unexpected)
    ensures ParseUuid(transactionId).Some? && !OwnedTxn(db.transactions, ParseUuid(transactionId).value, userId) ==>
      r == Err(TransactionNotFound)
    ensures r.Ok? ==>
      var t := ParseUuid(transactionId).value;
      && OwnedTxn(db.transactions, t, userId)
      && r.value.txn == db.transactions[t]
      && forall v :: v in r.value.splits <==>
           v.split in db.splits && v.split.txn == t && v.split.account in db.accounts
           && v.accountName == db.accounts[v.split.account].fullName
  {
    var parsed := ParseUuid(transactionId);
    if parsed.None? {
      return Err(Unexpected);
    }
    var t := parsed.value;
    if !(t in db.transactions && db.transactions[t].owner == userId) {
      return Err(TransactionNotFound);
    }
    JoinedMembers(db.accounts, db.splits, t);
    r := Ok(View(db.accounts, db.transactions, db.splits, t));
  }

  // --------------------------------------------------------------- update

  /**
   * Why `updateTransaction` refuses: supplied splits are checked before
   * anything is read; then the transaction must be the user's; then a
   * supplied date must parse; then supplied splits must pass the
   * database checks.
   */
  function UpdateFailure(accounts: map<Id, AccountRow>, txns: map<Id, TxnRow>, owner: Id, transactionId: string,
                         req: UpdateTransactionRequest): (r: Option<Failure>)
    ensures req.splits.Some? && ValidateStoredSplits(req.splits.value).Some? ==> r == ValidateStoredSplits(req.splits.value)
    ensures req.splits.None? ==>
      (r.None? <==> ParseUuid(transactionId).Some? && OwnedTxn(txns, ParseUuid(transactionId).value, owner)
                    && (req.date.Some? ==> ParseDate(req.date.value).Some?))
    ensures r == Some(TransactionNotFound) ==>
      (req.splits.Some? ==> ValidateStoredSplits(req.splits.value).None?)
      && ParseUuid(transactionId).Some? && !OwnedTxn(txns, ParseUuid(transactionId).value, owner)
  {
    if req.splits.Some? && ValidateStoredSplits(req.splits.value).Some? then ValidateStoredSplits(req.splits.value)
    else LookupFailure(accounts, txns, owner, transactionId, req)
  }

  /** The checks of `updateTransaction` after the splits rule: the transaction, the date, the database checks. */
  function LookupFailure(accounts: map<Id, AccountRow>, txns: map<Id, TxnRow>, owner: Id, transactionId: string,
                         req: UpdateTransactionRequest): (r: Option<Failure>)
    requires req.splits.Some? ==> AllWellFormed(req.splits.value)
    ensures req.splits.None? ==>
      (r.None? <==> ParseUuid(transactionId).Some? && OwnedTxn(txns, ParseUuid(transactionId).value, owner)
                    && (req.date.Some? ==> ParseDate(req.date.value).Some?))
    ensures r == Some(TransactionNotFound) ==>
      ParseUuid(transactionId).Some? && !OwnedTxn(txns, ParseUuid(transactionId).value, owner)
  {
    if ParseUuid(transactionId).None? then Some(Unexpected)
    else if !OwnedTxn(txns, ParseUuid(transactionId).value, owner) then Some(TransactionNotFound)
    else if req.date.Some? && ParseDate(req.date.value).None? then Some(Unexpected)
    else if req.splits.Some? then PostingFailure(accounts, owner, Postings(req.splits.value))
    else None
  }

  /** The transaction row after `Transactions.update`: supplied fields replace the stored ones; `updatedAt` is bumped. */
  function UpdatedTxn(row: TxnRow, req: UpdateTransactionRequest, now: Instant): TxnRow
    requires req.date.Some? ==> ParseDate(req.date.value).Some?
  {
    row.(date := if req.date.Some? then ParseDate(req.date.value).value else row.date,
         num := if req.num.Some? then req.num else row.num,
         description := req.description.GetOr(row.description),
         notes := if req.notes.Some? then req.notes else row.notes,
         updatedAt := now)
  }

  /**
   * Absent fields keep their stored value, supplied ones replace it: a
   * field can be changed but never cleared, and the void state, owner
   * and creation time are untouched.
   */
  lemma UpdatedFields(row: TxnRow, req: UpdateTransactionRequest, now: Instant)
    requires req.date.Some? ==> ParseDate(req.date.value).Some?
    ensures var u := UpdatedTxn(row, req, now);
      && u.id == row.id && u.owner == row.owner && u.voided == row.voided && u.voidReason == row.voidReason
      && u.createdAt == row.createdAt && u.updatedAt == now
      && (req.date.None? ==> u.date == row.date)
      && (req.num.None? ==> u.num == row.num) && (req.num.Some? ==> u.num == req.num)
      && (req.description.Some? ==> u.description == req.description.value)
      && (req.description.None? ==> u.description == row.description)
      && (req.notes.None? ==> u.notes == row.notes) && (req.notes.Some? ==> u.notes == req.notes)
      && (row.notes.Some? ==> u.notes.Some?) && (row.num.Some? ==> u.num.Some?)
  {
  }

  /** Sending the same update twice leaves the row as sending it once. */
  lemma UpdateIdempotent(row: TxnRow, req: UpdateTransactionRequest, now: Instant)
    requires req.date.Some? ==> ParseDate(req.date.value).Some?
    ensures UpdatedTxn(UpdatedTxn(row, req, now), req, now) == UpdatedTxn(row, req, now)
  {
  }

  /** The splits after an update: the old set is dropped and the new one appended, with no merge. */
  function ReplacedSplits(splits: seq<SplitRow>, t: Id, req: UpdateTransactionRequest, ids: seq<Id>, now: Instant)
    : seq<SplitRow>
    requires req.splits.Some? ==>
      AllWellFormed(req.splits.value) && |ids| == |req.splits.value| && Insertable(Postings(req.splits.value))
  {
    if req.splits.Some? then Without(splits, t) + NewSplits(Postings(req.splits.value), ids, t, now)
    else splits
  }

  lemma FreshWithout(splits: seq<SplitRow>, t: Id, ids: seq<Id>)
    requires FreshIds(splits, ids)
    ensures FreshIds(Without(splits, t), ids)
  {
    var w := Without(splits, t);
    forall i, j | 0 <= i < |w| && 0 <= j < |ids|
      ensures w[i].id != ids[j]
    {
      var k :| 0 <= k < |splits| && splits[k] == w[i];
    }
  }

  /** Swapping the split set of a stored transaction for a fresh balanced one keeps the ledger consistent. */
  lemma ReplaceKeepsLedger(accounts: map<Id, AccountRow>, txns: map<Id, TxnRow>, splits: seq<SplitRow>,
                           row: TxnRow, ps: seq<Posting>, ids: seq<Id>, now: Instant)
    requires LedgerValid(accounts, txns, splits)
    requires row.id in txns && txns[row.id].owner == row.owner && Valid(row.date) && FourDigitYear(row.date)
    requires |ids| == |ps| >= 2 && Insertable(ps)
    requires AllOwned(accounts, row.owner, ps)
    requires forall i :: 0 <= i < |ps| ==> !accounts[ps[i].account].placeholder
    requires forall c :: StoredGroupSum(ps, c) == 0
    requires FreshIds(splits, ids)
    ensures LedgerValid(accounts, txns[row.id := row], Without(splits, row.id) + NewSplits(ps, ids, row.id, now))
  {
    var t := row.id;
    DropKeepsLedger(accounts, txns, splits, t);
    FreshWithout(splits, t, ids);
    NewSplitsFresh(accounts, Without(splits, t), row, ps, ids, now);
    PostKeepsLedger(accounts, txns - {t}, Without(splits, t), row, NewSplits(ps, ids, t, now));
    assert (txns - {t})[t := row] == txns[t := row];
  }

  lemma UpdateKeepsLedger(accounts: map<Id, AccountRow>, txns: map<Id, TxnRow>, splits: seq<SplitRow>,
                          owner: Id, transactionId: string, req: UpdateTransactionRequest, ids: seq<Id>, now: Instant)
    requires LedgerValid(accounts, txns, splits)
    requires req.splits.Some? ==> |ids| == |req.splits.value| && FreshIds(splits, ids)
    requires UpdateFailure(accounts, txns, owner, transactionId, req).None?
    ensures ParseUuid(transactionId).Some? && OwnedTxn(txns, ParseUuid(transactionId).value, owner)
    ensures req.date.Some? ==> ParseDate(req.date.value).Some?
    ensures req.splits.Some? ==> AllWellFormed(req.splits.value) && Insertable(Postings(req.splits.value))
    ensures var t := ParseUuid(transactionId).value;
      LedgerValid(accounts, txns[t := UpdatedTxn(txns[t], req, now)], ReplacedSplits(splits, t, req, ids, now))
  {
    var t := ParseUuid(transactionId).value;
    var row := UpdatedTxn(txns[t], req, now);
    if req.splits.Some? {
      var ps := Postings(req.splits.value);
      assert ValidateStoredSplits(req.splits.value).None?;
      assert PostingFailure(accounts, owner, ps).None?;
      forall c
        ensures StoredGroupSum(ps, c) == 0
      {
      }
      ReplaceKeepsLedger(accounts, txns, splits, row, ps, ids, now);
    } else {
      LedgerKeepsTxn(accounts, txns, splits, row);
    }
  }

  /**
   * `updateTransaction`: overwrites the supplied fields, bumps
   * `updatedAt`, and when splits are supplied replaces the whole split
   * set of the transaction.
   */
  method UpdateTransaction(db: Database, userId: Id, transactionId: string, req: UpdateTransactionRequest,
                           splitIds: seq<Id>, now: Instant)
    returns (r: Result<TransactionView>)
    requires db.Valid()
    requires req.splits.Some? ==> |splitIds| == |req.splits.value| && FreshIds(db.splits, splitIds)
    modifies db
    ensures db.Valid()
    ensures r.Err? <==> UpdateFailure(old(db.accounts), old(db.transactions), userId, transactionId, req).Some?
    ensures r.Err? ==>
      Some(r.failure) == UpdateFailure(old(db.accounts), old(db.transactions), userId, transactionId, req)
      && unchanged(db)
    ensures r.Ok? ==>
      var t := ParseUuid(transactionId).value;
      && t in old(db.transactions) && (req.date.Some? ==> ParseDate(req.date.value).Some?)
      && (req.splits.Some? ==> AllWellFormed(req.splits.value) && Insertable(Postings(req.splits.value)))
      && db.transactions == old(db.transactions)[t := UpdatedTxn(old(db.transactions)[t], req, now)]
      && db.splits == ReplacedSplits(old(db.splits), t, req, splitIds, now)
      && r.value == View(db.accounts, db.transactions, db.splits, t)
    ensures db.accounts == old(db.accounts) && db.users == old(db.users)
  {
    var refused := UpdateFailure(db.accounts, db.transactions, userId, transactionId, req);
    if refused.Some? {
      return Err(refused.value);
    }
    UpdateKeepsLedger(db.accounts, db.transactions, db.splits, userId, transactionId, req, splitIds, now);
    var t := ParseUuid(transactionId).value;
    var row := UpdatedTxn(db.transactions[t], req, now);
    Write(db, db.transactions[t := row], ReplacedSplits(db.splits, t, req, splitIds, now));
    r := Ok(View(db.accounts, db.transactions, db.splits, t));
  }

  /** After a split update the transaction lists exactly the new splits, in request order. */
  lemma ReplacedView(accounts: map<Id, AccountRow>, splits: seq<SplitRow>, t: Id, rows: seq<SplitRow>)
    requires forall i :: 0 <= i < |rows| ==> rows[i].txn == t && rows[i].account in accounts
    ensures var v := Joined(accounts, Without(splits, t) + rows, t);
      |v| == |rows| && forall i :: 0 <= i < |rows| ==> v[i] == SplitView(rows[i], accounts[rows[i].account].fullName)
  {
    var w := Without(splits, t);
    forall i | 0 <= i < |w|
      ensures w[i].txn != t
    {
    }
    CreatedView(accounts, w, t, rows);
  }

  // --------------------------------------------------------------- delete

  /** Why `deleteTransaction` refuses. */
  function DeleteFailure(txns: map<Id, TxnRow>, owner: Id, transactionId: string): (r: Option<Failure>)
    ensures r.None? <==> ParseUuid(transactionId).Some? && OwnedTxn(txns, ParseUuid(transactionId).value, owner)
    ensures r.Some? ==> r == Some(Unexpected) || r == Some(TransactionNotFound)
  {
    if ParseUuid(transactionId).None? then Some(Unexpected)
    else if !OwnedTxn(txns, ParseUuid(transactionId).value, owner) then Some(TransactionNotFound)
    else None
  }

  /** `deleteTransaction`: removes every split of the transaction, then the transaction. */
  method DeleteTransaction(db: Database, userId: Id, transactionId: string) returns (r: Result<()>)
    requires db.Valid()
    modifies db
    ensures db.Valid()
    ensures r.Err? <==> DeleteFailure(old(db.transactions), userId, transactionId).Some?
    ensures r.Err? ==> Some(r.failure) == DeleteFailure(old(db.transactions), userId, transactionId) && unchanged(db)
    ensures r.Ok? ==>
      var t := ParseUuid(transactionId).value;
      db.transactions == old(db.transactions) - {t} && db.splits == Without(old(db.splits), t)
    ensures db.accounts == old(db.accounts) && db.users == old(db.users)
  {
    var refused := DeleteFailure(db.transactions, userId, transactionId);
    if refused.Some? {
      return Err(refused.value);
    }
    var t := ParseUuid(transactionId).value;
    DropKeepsLedger(db.accounts, db.transactions, db.splits, t);
    Write(db, db.transactions - {t}, Without(db.splits, t));
    r := Ok(());
  }

  /** Deleting a transaction leaves no split of it behind and leaves every other transaction's splits as they were. */
  lemma DeleteEffect(splits: seq<SplitRow>, t: Id, u: Id, c: Currency)
    requires u != t
    ensures forall s :: s in Without(splits, t) ==> s.txn != t
    ensures StoredSum(Without(splits, t), u, c) == StoredSum(splits, u, c)
    ensures SplitCount(Without(splits, t), u) == SplitCount(splits, u)
    ensures SplitCount(Without(splits, t), t) == 0
  {
    SumsWithout(splits, t, u, c);
    SumsWithout(splits, t, t, c);
  }

  // ---------------------------------------------------------- void/unvoid

  /** Why `voidTransaction` refuses: the transaction must be the user's and not voided already. */
  function VoidFailure(txns: map<Id, TxnRow>, owner: Id, transactionId: string): (r: Option<Failure>)
    ensures r.None? <==>
      ParseUuid(transactionId).Some? && OwnedTxn(txns, ParseUuid(transactionId).value, owner)
      && !txns[ParseUuid(transactionId).value].voided
    ensures r == Some(AlreadyVoided) <==>
      ParseUuid(transactionId).Some? && OwnedTxn(txns, ParseUuid(transactionId).value, owner)
      && txns[ParseUuid(transactionId).value].voided
  {
    if ParseUuid(transactionId).None? then Some(Unexpected)
    else if !OwnedTxn(txns, ParseUuid(transactionId).value, owner) then Some(TransactionNotFound)
    else if txns[ParseUuid(transactionId).value].voided then Some(AlreadyVoided)
    else None
  }

  /** Why `unvoidTransaction` refuses: the transaction must be the user's and voided. */
  function UnvoidFailure(txns: map<Id, TxnRow>, owner: Id, transactionId: string): (r: Option<Failure>)
    ensures r.None? <==>
      ParseUuid(transactionId).Some? && OwnedTxn(txns, ParseUuid(transactionId).value, owner)
      && txns[ParseUuid(transactionId).value].voided
    ensures r == Some(NotVoided) <==>
      ParseUuid(transactionId).Some? && OwnedTxn(txns, ParseUuid(transactionId).value, owner)
      && !txns[ParseUuid(transactionId).value].voided
  {
    if ParseUuid(transactionId).None? then Some(Unexpected)
    else if !OwnedTxn(txns, ParseUuid(transactionId).value, owner) then Some(TransactionNotFound)
    else if !txns[ParseUuid(transactionId).value].voided then Some(NotVoided)
    else None
  }

  function VoidedTxn(row: TxnRow, reason: Option<string>, now: Instant): TxnRow {
    row.(voided := true, voidReason := reason, updatedAt := now)
  }

  function RestoredTxn(row: TxnRow, now: Instant): TxnRow {
    row.(voided := false, voidReason := None, updatedAt := now)
  }

  /** Unvoiding a transaction voided from a clean state gives back the row, apart from `updatedAt`. */
  lemma VoidThenRestore(row: TxnRow, reason: Option<string>, n1: Instant, n2: Instant)
    requires !row.voided && row.voidReason.None?
    ensures RestoredTxn(VoidedTxn(row, reason, n1), n2) == row.(updatedAt := n2)
  {
  }

  /** After a void, a second void fails and an unvoid succeeds; after an unvoid, the reverse. */
  lemma VoidToggles(txns: map<Id, TxnRow>, owner: Id, transactionId: string, reason: Option<string>, now: Instant)
    requires VoidFailure(txns, owner, transactionId).None?
    ensures var t := ParseUuid(transactionId).value;
      var txns' := txns[t := VoidedTxn(txns[t], reason, now)];
      VoidFailure(txns', owner, transactionId) == Some(AlreadyVoided)
      && UnvoidFailure(txns', owner, transactionId).None?
  {
  }

  /** `voidTransaction`: marks the transaction voided with the given reason; its splits stay as they are. */
  method VoidTransaction(db: Database, userId: Id, transactionId: string, reason: Option<string>, now: Instant)
    returns (r: Result<TransactionView>)
    requires db.Valid()
    modifies db
    ensures db.Valid()
    ensures r.Err? <==> VoidFailure(old(db.transactions), userId, transactionId).Some?
    ensures r.Err? ==> Some(r.failure) == VoidFailure(old(db.transactions), userId, transactionId) && unchanged(db)
    ensures r.Ok? ==>
      var t := ParseUuid(transactionId).value;
      && t in old(db.transactions)
      && db.transactions == old(db.transactions)[t := VoidedTxn(old(db.transactions)[t], reason, now)]
      && r.value == View(db.accounts, db.transactions, db.splits, t)
    ensures db.accounts == old(db.accounts) && db.splits == old(db.splits) && db.users == old(db.users)
  {
    var refused := VoidFailure(db.transactions, userId, transactionId);
    if refused.Some? {
      return Err(refused.value);
    }
    var t := ParseUuid(transactionId).value;
    var row := VoidedTxn(db.transactions[t], reason, now);
    LedgerKeepsTxn(db.accounts, db.transactions, db.splits, row);
    Write(db, db.transactions[t := row], db.splits);
    r := Ok(View(db.accounts, db.transactions, db.splits, t));
  }

  /** `unvoidTransaction`: clears the voided flag and the reason; its splits stay as they are. */
  method UnvoidTransaction(db: Database, userId: Id, transactionId: string, now: Instant)
    returns (r: Result<TransactionView>)
    requires db.Valid()
    modifies db
    ensures db.Valid()
    ensures r.Err? <==> UnvoidFailure(old(db.transactions), userId, transactionId).Some?
    ensures r.Err? ==> Some(r.failure) == UnvoidFailure(old(db.transactions), userId, transactionId) && unchanged(db)
    ensures r.Ok? ==>
      var t := ParseUuid(transactionId).value;
      && t in old(db.transactions)
      && db.transactions == old(db.transactions)[t := RestoredTxn(old(db.transactions)[t], now)]
      && r.value == View(db.accounts, db.transactions, db.splits, t)
    ensures db.accounts == old(db.accounts) && db.splits == old(db.splits) && db.users == old(db.users)
  {
    var refused := UnvoidFailure(db.transactions, userId, transactionId);
    if refused.Some? {
      return Err(refused.value);
    }
    var t := ParseUuid(transactionId).value;
    var row := RestoredTxn(db.transactions[t], now);
    LedgerKeepsTxn(db.accounts, db.transactions, db.splits, row);
    Write(db, db.transactions[t := row], db.splits);
    r := Ok(View(db.accounts, db.transactions, db.splits, t));
  }

  // -------------------------------------------------------- reconcile

  /** The position of the split with id `id`, if there is one. */
  function SplitIndex(splits: seq<SplitRow>, id: Id): (r: Option<nat>)
    ensures r.Some? ==> r.value < |splits| && splits[r.value].id == id
    ensures r.None? <==> forall i :: 0 <= i < |splits| ==> splits[i].id != id
  {
    if splits == [] then None
    else if splits[0].id == id then Some(0)
    else
      var rest := SplitIndex(splits[1..], id);
      assert forall i :: 1 <= i < |splits| ==> splits[i] == splits[1..][i - 1];
      if rest.Some? then Some(rest.value + 1) else None
  }

  /** The join `Splits innerJoin Transactions innerJoin Accounts` finds the split under one of the user's transactions. */
  predicate SplitVisible(accounts: map<Id, AccountRow>, txns: map<Id, TxnRow>, s: SplitRow, owner: Id) {
    OwnedTxn(txns, s.txn, owner) && s.account in accounts
  }

  /**
   * Why `updateReconcileStatus` refuses: the split id is read first, then
   * the status, case-insensitively, then the split is looked up among the
   * user's transactions.
   */
  function ReconcileFailure(accounts: map<Id, AccountRow>, txns: map<Id, TxnRow>, splits: seq<SplitRow>,
                            owner: Id, splitId: string, status: string): (r: Option<Failure>)
    ensures ParseUuid(splitId).Some? && ReadStatus(status).None? ==> r == Some(InvalidReconcileStatus(status))
    ensures r.None? <==>
      ParseUuid(splitId).Some? && ReadStatus(status).Some?
      && SplitIndex(splits, ParseUuid(splitId).value).Some?
      && SplitVisible(accounts, txns, splits[SplitIndex(splits, ParseUuid(splitId).value).value], owner)
  {
    if ParseUuid(splitId).None? then Some(Unexpected)
    else if ReadStatus(status).None? then Some(InvalidReconcileStatus(status))
    else
      var i := SplitIndex(splits, ParseUuid(splitId).value);
      if i.None? || !SplitVisible(accounts, txns, splits[i.value], owner) then Some(SplitNotFound)
      else None
  }

  /**
   * `updateReconcileStatus`: sets the split's status, whatever it was
   * before, and bumps its transaction's `updatedAt`.
   */
  method UpdateReconcileStatus(db: Database, userId: Id, splitId: string, status: string, now: Instant)
    returns (r: Result<SplitView>)
    requires db.Valid()
    modifies db
    ensures db.Valid()
    ensures r.Err? <==> ReconcileFailure(old(db.accounts), old(db.transactions), old(db.splits), userId, splitId, status).Some?
    ensures r.Err? ==>
      Some(r.failure) == ReconcileFailure(old(db.accounts), old(db.transactions), old(db.splits), userId, splitId, status)
      && unchanged(db)
    ensures r.Ok? ==>
      var i := SplitIndex(old(db.splits), ParseUuid(splitId).value).value;
      var s := old(db.splits)[i];
      && ReadStatus(status).Some? && s.txn in old(db.transactions) && s.account in db.accounts
      && db.splits == old(db.splits)[i := s.(status := ReadStatus(status).value)]
      && db.transactions == old(db.transactions)[s.txn := old(db.transactions)[s.txn].(updatedAt := now)]
      && r.value == SplitView(db.splits[i], db.accounts[s.account].fullName)
    ensures db.accounts == old(db.accounts) && db.users == old(db.users)
  {
    var refused := ReconcileFailure(db.accounts, db.transactions, db.splits, userId, splitId, status);
    if refused.Some? {
      return Err(refused.value);
    }
    var i := SplitIndex(db.splits, ParseUuid(splitId).value).value;
    var s := db.splits[i];
    var st := ReadStatus(status).value;
    var splits' := db.splits[i := s.(status := st)];
    StatusKeepsLedger(db.accounts, db.transactions, db.splits, i, st);
    var row := db.transactions[s.txn].(updatedAt := now);
    LedgerKeepsTxn(db.accounts, db.transactions, splits', row);
    Write(db, db.transactions[s.txn := row], splits');
    r := Ok(SplitView(db.splits[i], db.accounts[s.account].fullName));
  }

  /** Changing a reconcile status moves no money: every sum, count and balance stays as it was. */
  lemma ReconcileKeepsSums(splits: seq<SplitRow>, i: nat, st: ReconcileStatus, t: Id, c: Currency, a: Id)
    requires i < |splits|
    ensures var splits' := splits[i := splits[i].(status := st)];
      StoredSum(splits', t, c) == StoredSum(splits, t, c)
      && SplitCount(splits', t) == SplitCount(splits, t)
      && AccountSum(splits', a) == AccountSum(splits, a)
  {
    StatusKeepsSums(splits, splits[i := splits[i].(status := st)], t, c, a);
  }

  /** Any capitalisation of a status name is accepted, and nothing else. */
  lemma StatusAnyCase(t: string, st: ReconcileStatus)
    requires SameIgnoringCase(t, StatusName(st))
    ensures ReadStatus(t) == Some(st)
  {
    ReadStatusAnyCase(t, st);
  }
}
