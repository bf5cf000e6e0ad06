/**
 * `getAccountRegister`: every split posted to one account, joined with
 * its transaction, oldest first, with a running balance that skips
 * voided transactions. Each entry also names the other accounts of its
 * transaction and says whether there is more than one of them.
 *
 * Rows with the same date and creation time keep table order; the
 * database leaves that order open.
 */
module Register {
  import opened Wrappers
  import opened Uuid
  import opened Tables
  import opened Errors
  import opened Dates
  import opened Store
  import opened Sorting
  import opened TransactionService
  import opened TransactionList

  /** One row of `Splits innerJoin Transactions`. */
  datatype Line = Line(split: SplitRow, txn: TxnRow)

  datatype RegisterEntry = RegisterEntry(
    transactionId: Id,
    splitId: Id,
    date: Date,
    num: Option<string>,
    description: string,
    memo: Option<string>,
    amount: int,
    balance: int,
    reconcileStatus: ReconcileStatus,
    voided: bool,
    otherAccounts: seq<string>,
    isSplit: bool)

  datatype AccountRegister = AccountRegister(
    accountId: Id,
    accountName: string,
    accountType: AccountType,
    normalBalance: NormalBalance,
    entries: seq<RegisterEntry>,
    openingBalance: int,
    closingBalance: int)

  // ---------------------------------------------------------------- rows

  /** The lines of account `a` dated within the bounds that are given, in table order. */
  function Lines(txns: map<Id, TxnRow>, splits: seq<SplitRow>, a: Id, from: Option<Date>, to: Option<Date>)
    : (r: seq<Line>)
    ensures forall i :: 0 <= i < |r| ==>
      r[i].split in splits && r[i].split.account == a
      && r[i].split.txn in txns && r[i].txn == txns[r[i].split.txn]
  {
    if splits == [] then []
    else
      var init := splits[..|splits| - 1];
      var s := splits[|splits| - 1];
      Lines(txns, init, a, from, to)
      + if s.account == a && s.txn in txns && InRange(txns[s.txn].date, from, to) then [Line(s, txns[s.txn])] else []
  }

  predicate InRange(d: Date, from: Option<Date>, to: Option<Date>) {
    (from.Some? ==> Le(from.value, d)) && (to.Some? ==> Le(d, to.value))
  }

  /** `orderBy(date ASC, createdAt ASC)`. */
  function OldestFirst(l: Line): (int, int) {
    (Ordinal(l.txn.date), l.txn.createdAt)
  }

  /** What a line adds to the balance: its amount, or nothing when its transaction is voided. */
  function Counted(l: Line): int {
    if l.txn.voided then 0 else l.split.amount
  }

  /** The balance after `lines`. */
  function Running(lines: seq<Line>): int {
    if lines == [] then 0 else Running(lines[..|lines| - 1]) + Counted(lines[|lines| - 1])
  }

  /** The full names of the other accounts of transaction `t`, in table order. */
  function Others(accounts: map<Id, AccountRow>, splits: seq<SplitRow>, t: Id, a: Id): (r: seq<string>)
    ensures |r| <= |splits|
  {
    if splits == [] then []
    else
      var init := splits[..|splits| - 1];
      var s := splits[|splits| - 1];
      Others(accounts, init, t, a)
      + if s.txn == t && s.account != a && s.account in accounts then [accounts[s.account].fullName] else []
  }

  function Entry(accounts: map<Id, AccountRow>, splits: seq<SplitRow>, a: Id, l: Line, balance: int): RegisterEntry {
    var others := Others(accounts, splits, l.txn.id, a);
    RegisterEntry(l.txn.id, l.split.id, l.txn.date, l.txn.num, l.txn.description, l.split.memo,
                  l.split.amount, balance, l.split.status, l.txn.voided, others, |others| > 1)
  }

  // ------------------------------------------------------------ register

  /** Why the register is refused: an unreadable account id, someone else's account, or an unreadable date. */
  function RegisterFailure(accounts: map<Id, AccountRow>, owner: Id, accountId: string,
                           startDate: Option<string>, endDate: Option<string>): (r: Option<Failure>)
    ensures r.None? <==>
      ParseUuid(accountId).Some? && ParseUuid(accountId).value in accounts
      && accounts[ParseUuid(accountId).value].owner == owner
      && ReadBound(startDate).Some? && ReadBound(endDate).Some?
    ensures r == Some(AccountNotFound) <==>
      ParseUuid(accountId).Some?
      && (ParseUuid(accountId).value !in accounts || accounts[ParseUuid(accountId).value].owner != owner)
  {
    if ParseUuid(accountId).None? then Some(Unexpected)
    else if ParseUuid(accountId).value !in accounts || accounts[ParseUuid(accountId).value].owner != owner
    then Some(AccountNotFound)
    else if ReadBound(startDate).None? || ReadBound(endDate).None? then Some(Unexpected)
    else None
  }

  /** The register's lines, oldest first. */
  function Ordered(txns: map<Id, TxnRow>, splits: seq<SplitRow>, a: Id, from: Option<Date>, to: Option<Date>)
    : seq<Line>
  {
    SortBy(Lines(txns, splits, a, from, to), OldestFirst)
  }

  /**
   * `getAccountRegister`: one entry per line, oldest first, each carrying
   * the balance after it; the closing balance is the balance after the
   * last line and the opening balance is always zero.
   */
  method GetAccountRegister(db: Database, userId: Id, accountId: string,
                            startDate: Option<string>, endDate: Option<string>)
    returns (r: Result<AccountRegister>)
    ensures r.Err? <==> RegisterFailure(db.accounts, userId, accountId, startDate, endDate).Some?
    ensures r.Err? ==> Some(r.failure) == RegisterFailure(db.accounts, userId, accountId, startDate, endDate)
    ensures r.Ok? ==>
      var a := ParseUuid(accountId).value;
      var lines := Ordered(db.transactions, db.splits, a, ReadBound(startDate).value, ReadBound(endDate).value);
      && a in db.accounts
      && r.value.accountId == a && r.value.accountName == db.accounts[a].fullName
      && r.value.accountType == db.accounts[a].accountType && r.value.normalBalance == db.accounts[a].normalBalance
      && |r.value.entries| == |lines|
      && (forall k :: 0 <= k < |lines| ==>
            r.value.entries[k] == Entry(db.accounts, db.splits, a, lines[k], Running(lines[..k + 1])))
      && r.value.openingBalance == 0
      && r.value.closingBalance == Running(lines)
  {
    var refused := RegisterFailure(db.accounts, userId, accountId, startDate, endDate);
    if refused.Some? {
      return Err(refused.value);
    }
    var a := ParseUuid(accountId).value;
    var account := db.accounts[a];
    var lines := Ordered(db.transactions, db.splits, a, ReadBound(startDate).value, ReadBound(endDate).value);
    var entries, balance := Entries(db.accounts, db.splits, a, lines);
    r := Ok(AccountRegister(a, account.fullName, account.accountType, account.normalBalance, entries, 0, balance));
  }

  /** The loop of `getAccountRegister`: walks the lines keeping the running balance, skipping voided transactions. */
  method Entries(accounts: map<Id, AccountRow>, splits: seq<SplitRow>, a: Id, lines: seq<Line>)
    returns (entries: seq<RegisterEntry>, balance: int)
    ensures |entries| == |lines|
    ensures forall k :: 0 <= k < |lines| ==> entries[k] == Entry(accounts, splits, a, lines[k], Running(lines[..k + 1]))
    ensures balance == Running(lines)
  {
    balance := 0;
    entries := [];
    var i := 0;
    while i < |lines|
      invariant 0 <= i <= |lines|
      invariant balance == Running(lines[..i])
      invariant |entries| == i
      invariant forall k :: 0 <= k < i ==> entries[k] == Entry(accounts, splits, a, lines[k], Running(lines[..k + 1]))
    {
      var l := lines[i];
      assert lines[..i + 1][..i] == lines[..i];
      if !l.txn.voided {
        balance := balance + l.split.amount;
      }
      entries := entries + [Entry(accounts, splits, a, l, balance)];
      i := i + 1;
    }
    assert lines[..i] == lines;
  }

  // ------------------------------------------------------------ balances

  /** Each entry's balance is the previous one plus its amount, or the previous one unchanged when voided. */
  lemma BalanceStep(lines: seq<Line>, k: nat)
    requires 0 < k < |lines|
    ensures Running(lines[..k + 1]) == Running(lines[..k]) + (if lines[k].txn.voided then 0 else lines[k].split.amount)
  {
    assert lines[..k + 1][..k] == lines[..k];
  }

  /** The sum of the counted amounts of account `a` in range, over the splits table. */
  function LiveSum(txns: map<Id, TxnRow>, splits: seq<SplitRow>, a: Id, from: Option<Date>, to: Option<Date>): int {
    if splits == [] then 0
    else
      var s := splits[|splits| - 1];
      LiveSum(txns, splits[..|splits| - 1], a, from, to)
      + if s.account == a && s.txn in txns && InRange(txns[s.txn].date, from, to) && !txns[s.txn].voided
        then s.amount else 0
  }

  /** The sum of the amounts of account `a` posted by voided transactions. */
  function VoidedSum(txns: map<Id, TxnRow>, splits: seq<SplitRow>, a: Id): int {
    if splits == [] then 0
    else
      var s := splits[|splits| - 1];
      VoidedSum(txns, splits[..|splits| - 1], a) + if s.account == a && s.txn in txns && txns[s.txn].voided then s.amount else 0
  }

  lemma {:induction false} LinesSum(txns: map<Id, TxnRow>, splits: seq<SplitRow>, a: Id, from: Option<Date>, to: Option<Date>)
    ensures Running(Lines(txns, splits, a, from, to)) == LiveSum(txns, splits, a, from, to)
  {
    if splits != [] {
      var init := splits[..|splits| - 1];
      LinesSum(txns, init, a, from, to);
      var prev := Lines(txns, init, a, from, to);
      var s := splits[|splits| - 1];
      if s.account == a && s.txn in txns && InRange(txns[s.txn].date, from, to) {
        assert (prev + [Line(s, txns[s.txn])])[..|prev|] == prev;
      } else {
        assert prev + [] == prev;
      }
    }
  }

  /** Moving one line to the end does not change the balance after the lines. */
  lemma {:induction false} RunningRemove(xs: seq<Line>, k: nat)
    requires k < |xs|
    ensures Running(xs) == Running(xs[..k] + xs[k + 1..]) + Counted(xs[k])
  {
    var n := |xs| - 1;
    if k < n {
      var init := xs[..n];
      RunningRemove(init, k);
      assert init[..k] + init[k + 1..] == (xs[..k] + xs[k + 1..])[..n - 1];
      assert (xs[..k] + xs[k + 1..])[n - 1] == xs[n];
    } else {
      assert xs[..k] + xs[k + 1..] == xs[..n];
    }
  }

  /** The balance after some lines does not depend on their order. */
  lemma {:induction false} RunningPermutation(xs: seq<Line>, ys: seq<Line>)
    requires multiset(xs) == multiset(ys)
    ensures Running(xs) == Running(ys)
  {
    if xs == [] {
      assert |ys| == |multiset(ys)|;
    } else {
      var n := |xs| - 1;
      var x := xs[n];
      var init := xs[..n];
      assert xs == init + [x];
      assert multiset(xs) == multiset(init) + multiset{x};
      assert x in multiset(ys);
      var k :| 0 <= k < |ys| && ys[k] == x;
      var rest := ys[..k] + ys[k + 1..];
      assert multiset(ys) == multiset(rest) + multiset{x} by {
        assert ys == ys[..k] + [x] + ys[k + 1..];
      }
      assert multiset(init) == multiset(xs) - multiset{x};
      assert multiset(rest) == multiset(ys) - multiset{x};
      RunningPermutation(init, rest);
      RunningRemove(ys, k);
    }
  }

  /**
   * The closing balance is the sum of the account's amounts in range
   * over non-voided transactions, whatever order the register lists them in.
   */
  lemma ClosingBalance(txns: map<Id, TxnRow>, splits: seq<SplitRow>, a: Id, from: Option<Date>, to: Option<Date>)
    ensures Running(Ordered(txns, splits, a, from, to)) == LiveSum(txns, splits, a, from, to)
  {
    RunningPermutation(Ordered(txns, splits, a, from, to), Lines(txns, splits, a, from, to));
    LinesSum(txns, splits, a, from, to);
  }

  /**
   * Without a date range, the account balance (which counts voided
   * transactions) is the register's closing balance plus the voided amounts.
   */
  lemma {:induction false} BalanceCountsVoided(txns: map<Id, TxnRow>, splits: seq<SplitRow>, a: Id)
    requires forall i :: 0 <= i < |splits| ==> splits[i].txn in txns
    ensures AccountSum(splits, a) == LiveSum(txns, splits, a, None, None) + VoidedSum(txns, splits, a)
  {
    if splits != [] {
      BalanceCountsVoided(txns, splits[..|splits| - 1], a);
    }
  }

  /** An entry is a split transaction exactly when two or more other accounts take part. */
  lemma IsSplitMeans(accounts: map<Id, AccountRow>, splits: seq<SplitRow>, a: Id, l: Line, balance: int)
    ensures Entry(accounts, splits, a, l, balance).isSplit <==> |Others(accounts, splits, l.txn.id, a)| >= 2
    ensures Entry(accounts, splits, a, l, balance).otherAccounts == Others(accounts, splits, l.txn.id, a)
  {
  }

  /** The register lists oldest first: by date, then by creation time. */
  lemma OldestFirstOrder(lines: seq<Line>, i: nat, j: nat)
    requires SortedBy(lines, OldestFirst) && i < j < |lines|
    ensures Le(lines[i].txn.date, lines[j].txn.date)
    ensures lines[i].txn.date == lines[j].txn.date ==> lines[i].txn.createdAt <= lines[j].txn.createdAt
  {
    assert KeyLe(OldestFirst(lines[i]), OldestFirst(lines[j]));
  }

  /** Every split of the account within the range, voided or not, has exactly one line. */
  lemma {:induction false} LinesCover(txns: map<Id, TxnRow>, splits: seq<SplitRow>, a: Id, from: Option<Date>, to: Option<Date>,
                                      s: SplitRow)
    requires s in splits && s.account == a && s.txn in txns && InRange(txns[s.txn].date, from, to)
    ensures Line(s, txns[s.txn]) in Lines(txns, splits, a, from, to)
  {
    var init := splits[..|splits| - 1];
    if s != splits[|splits| - 1] {
      assert s in init by {
        var k :| 0 <= k < |splits| && splits[k] == s;
        assert init[k] == s;
      }
      LinesCover(txns, init, a, from, to, s);
    }
  }
}
