/**
 * The server's database: the users, accounts, transactions and splits
 * tables, held in one object whose fields the services update.
 *
 * Accounts, transactions and users are keyed by id. Splits are kept as
 * a sequence in table order, the order an unsorted query returns them.
 * A split amount is the `decimal(19, 4)` column value as a whole number
 * of ten-thousandths.
 *
 * `Valid` gathers what the schema and the services together keep true:
 * keys match ids and ids are canonical UUID text, parent links stay within one owner and one account type
 * and form a forest, the sibling-name index holds, normal balances follow
 * the account type, splits point at existing rows of the same owner and
 * never at a placeholder, and every transaction has at least two splits
 * whose stored amounts sum to zero in each currency.
 */
module Store {
  import opened Wrappers
  import opened Uuid
  import opened Dates
  import opened Tables
  import opened Links
  import Decimal

  /** A reading of `Clock.System.now()`. */
  type Instant = int

  datatype AccountRow = AccountRow(
    id: Id,
    owner: Id,
    parent: Option<Id>,
    name: string,
    fullName: string,
    accountType: AccountType,
    normalBalance: NormalBalance,
    currency: Currency,
    description: Option<string>,
    placeholder: bool,
    createdAt: Instant,
    updatedAt: Instant)

  datatype TxnRow = TxnRow(
    id: Id,
    owner: Id,
    date: Date,
    num: Option<string>,
    description: string,
    notes: Option<string>,
    voided: bool,
    voidReason: Option<string>,
    createdAt: Instant,
    updatedAt: Instant)

  /** `amount` is in ten-thousandths of the currency unit. */
  datatype SplitRow = SplitRow(
    id: Id,
    txn: Id,
    account: Id,
    amount: int,
    currency: Currency,
    memo: Option<string>,
    status: ReconcileStatus,
    createdAt: Instant)

  datatype UserRow = UserRow(
    id: Id,
    username: string,
    email: Option<string>,
    passwordHash: string,
    createdAt: Instant,
    updatedAt: Instant)

  // ---------------------------------------------------------- amount column

  /** `decimal(19, 4)` holds fifteen integer digits: magnitudes below 10^15, i.e. 10^19 ten-thousandths. */
  const ColumnBound: int := 10_000_000_000_000_000_000

  predicate FitsColumn(units: int) {
    -ColumnBound < units < ColumnBound
  }

  /** The decimal a column value reads back as. */
  function ColumnDec(units: int): (d: Decimal.Dec)
    ensures d.scale == 4 && Decimal.Value(d) == units as real / 10000.0
  {
    Decimal.Dec(units, 4)
  }

  // ---------------------------------------------------------- parent links

  function LinksOf(accounts: map<Id, AccountRow>): Parents {
    map id | id in accounts :: accounts[id].parent
  }

  /** The `(user_id, parent_id, name)` key of the sibling index. */
  predicate SameSlot(a: AccountRow, b: AccountRow) {
    a.owner == b.owner && a.parent == b.parent && a.name == b.name
  }

  /**
   * The unique index on `(user_id, parent_id, name)`. The database treats
   * null parents as distinct, so two roots of one user may share a name.
   */
  ghost predicate SiblingIndex(accounts: map<Id, AccountRow>) {
    forall x, y :: x in accounts && y in accounts && x != y && accounts[x].parent.Some? ==>
      !SameSlot(accounts[x], accounts[y])
  }

  /** A parent exists, belongs to the same user and has the same type. */
  ghost predicate ParentFits(accounts: map<Id, AccountRow>, a: AccountRow) {
    a.parent.Some? ==>
      a.parent.value in accounts
      && accounts[a.parent.value].owner == a.owner
      && accounts[a.parent.value].accountType == a.accountType
  }

  ghost predicate AllFit(accounts: map<Id, AccountRow>) {
    forall id :: id in accounts ==> ParentFits(accounts, accounts[id])
  }

  ghost predicate AccountsValid(accounts: map<Id, AccountRow>) {
    (forall id :: id in accounts ==> accounts[id].id == id && Canonical(id))
    && AllFit(accounts)
    && (forall id :: id in accounts ==> accounts[id].normalBalance == FromAccountType(accounts[id].accountType))
    && Acyclic(LinksOf(accounts))
    && SiblingIndex(accounts)
  }

  lemma ValidClosed(accounts: map<Id, AccountRow>)
    requires AllFit(accounts)
    ensures Closed(LinksOf(accounts))
  {
  }

  // ---------------------------------------------------------------- ledger

  /** Sum of the stored amounts of transaction `t` in currency `c`. */
  function StoredSum(splits: seq<SplitRow>, t: Id, c: Currency): int {
    if splits == [] then 0
    else
      var s := splits[|splits| - 1];
      StoredSum(splits[..|splits| - 1], t, c) + (if s.txn == t && s.currency == c then s.amount else 0)
  }

  /** Number of splits of transaction `t`. */
  function SplitCount(splits: seq<SplitRow>, t: Id): nat {
    if splits == [] then 0
    else SplitCount(splits[..|splits| - 1], t) + (if splits[|splits| - 1].txn == t then 1 else 0)
  }

  /** Sum of every stored amount posted to account `a`, whatever its currency or transaction. */
  function AccountSum(splits: seq<SplitRow>, a: Id): int {
    if splits == [] then 0
    else
      var s := splits[|splits| - 1];
      AccountSum(splits[..|splits| - 1], a) + (if s.account == a then s.amount else 0)
  }

  predicate Posted(splits: seq<SplitRow>, a: Id) {
    exists i :: 0 <= i < |splits| && splits[i].account == a
  }

  /** The splits of every transaction but `t`, in table order. */
  function Without(splits: seq<SplitRow>, t: Id): (r: seq<SplitRow>)
    ensures forall i :: 0 <= i < |r| ==> r[i] in splits && r[i].txn != t
    ensures forall s :: s in splits && s.txn != t ==> s in r
  {
    if splits == [] then []
    else
      var last := splits[|splits| - 1];
      var init := splits[..|splits| - 1];
      assert splits == init + [last];
      Without(init, t) + (if last.txn != t then [last] else [])
  }

  ghost predicate SplitFits(accounts: map<Id, AccountRow>, txns: map<Id, TxnRow>, s: SplitRow) {
    s.txn in txns && s.account in accounts
    && accounts[s.account].owner == txns[s.txn].owner
    && !accounts[s.account].placeholder
    && FitsColumn(s.amount)
  }

  ghost predicate DistinctSplitIds(splits: seq<SplitRow>) {
    forall i, j :: 0 <= i < j < |splits| ==> splits[i].id != splits[j].id
  }

  /** Every transaction balances in every currency and has at least two splits. */
  ghost predicate Balanced(txns: map<Id, TxnRow>, splits: seq<SplitRow>) {
    (forall t, c :: t in txns ==> StoredSum(splits, t, c) == 0)
    && (forall t :: t in txns ==> SplitCount(splits, t) >= 2)
  }

  ghost predicate LedgerValid(accounts: map<Id, AccountRow>, txns: map<Id, TxnRow>, splits: seq<SplitRow>) {
    (forall t :: t in txns ==> txns[t].id == t && Valid(txns[t].date) && FourDigitYear(txns[t].date))
    && (forall i :: 0 <= i < |splits| ==> SplitFits(accounts, txns, splits[i]))
    && DistinctSplitIds(splits)
    && Balanced(txns, splits)
  }

  ghost predicate UsersValid(users: map<Id, UserRow>) {
    (forall u :: u in users ==> users[u].id == u)
    && (forall a, b :: a in users && b in users && a != b ==>
          users[a].username != users[b].username
          && (users[a].email.Some? ==> users[a].email != users[b].email))
  }

  // ------------------------------------------------------------ sum lemmas

  lemma {:induction false} SumsAppend(a: seq<SplitRow>, b: seq<SplitRow>, t: Id, c: Currency, acc: Id)
    ensures StoredSum(a + b, t, c) == StoredSum(a, t, c) + StoredSum(b, t, c)
    ensures SplitCount(a + b, t) == SplitCount(a, t) + SplitCount(b, t)
    ensures AccountSum(a + b, acc) == AccountSum(a, acc) + AccountSum(b, acc)
    decreases |b|
  {
    if b == [] {
      assert a + b == a;
    } else {
      assert (a + b)[..|a + b| - 1] == a + b[..|b| - 1];
      SumsAppend(a, b[..|b| - 1], t, c, acc);
    }
  }

  /** Splits of other transactions contribute nothing to `t`. */
  lemma {:induction false} SumsOther(splits: seq<SplitRow>, t: Id, c: Currency)
    requires forall i :: 0 <= i < |splits| ==> splits[i].txn != t
    ensures StoredSum(splits, t, c) == 0 && SplitCount(splits, t) == 0
  {
    if splits != [] {
      SumsOther(splits[..|splits| - 1], t, c);
    }
  }

  /** Dropping the splits of `t` empties `t` and leaves every other transaction as it was. */
  lemma {:induction false} SumsWithout(splits: seq<SplitRow>, t: Id, u: Id, c: Currency)
    ensures StoredSum(Without(splits, t), u, c) == if u == t then 0 else StoredSum(splits, u, c)
    ensures SplitCount(Without(splits, t), u) == if u == t then 0 else SplitCount(splits, u)
  {
    if splits != [] {
      var last := splits[|splits| - 1];
      var init := splits[..|splits| - 1];
      SumsWithout(init, t, u, c);
      SumsAppend(Without(init, t), if last.txn != t then [last] else [], u, c, u);
      assert StoredSum([last], u, c) == (if last.txn == u && last.currency == c then last.amount else 0) by {
        assert [last][..0] == [];
      }
      assert SplitCount([last], u) == (if last.txn == u then 1 else 0) by {
        assert [last][..0] == [];
      }
    }
  }

  lemma {:induction false} NotPostedSum(splits: seq<SplitRow>, a: Id)
    requires !Posted(splits, a)
    ensures AccountSum(splits, a) == 0
  {
    if splits != [] {
      NotPostedSum(splits[..|splits| - 1], a);
    }
  }

  // -------------------------------------------------------- frame lemmas

  /** Account changes that keep owners, placeholders and the rows splits point at keep the ledger. */
  lemma LedgerKeepsAccounts(accounts: map<Id, AccountRow>, accounts': map<Id, AccountRow>,
                            txns: map<Id, TxnRow>, splits: seq<SplitRow>)
    requires LedgerValid(accounts, txns, splits)
    requires forall i :: 0 <= i < |splits| ==> splits[i].account in accounts'
    requires forall a :: a in accounts && a in accounts' ==>
      accounts'[a].owner == accounts[a].owner && accounts'[a].placeholder == accounts[a].placeholder
    ensures LedgerValid(accounts', txns, splits)
  {
    forall i | 0 <= i < |splits|
      ensures SplitFits(accounts', txns, splits[i])
    {
      assert SplitFits(accounts, txns, splits[i]);
    }
  }

  /** Changing fields of a transaction other than its id and owner keeps the ledger. */
  lemma LedgerKeepsTxn(accounts: map<Id, AccountRow>, txns: map<Id, TxnRow>, splits: seq<SplitRow>, row: TxnRow)
    requires LedgerValid(accounts, txns, splits)
    requires row.id in txns && txns[row.id].owner == row.owner
    requires Valid(row.date) && FourDigitYear(row.date)
    ensures LedgerValid(accounts, txns[row.id := row], splits)
  {
    var txns' := txns[row.id := row];
    forall i | 0 <= i < |splits|
      ensures SplitFits(accounts, txns', splits[i])
    {
      assert SplitFits(accounts, txns, splits[i]);
    }
  }

  // -------------------------------------------------------------- database

  class Database {
    var accounts: map<Id, AccountRow>
    var transactions: map<Id, TxnRow>
    var splits: seq<SplitRow>
    var users: map<Id, UserRow>

    ghost predicate Valid()
      reads this
    {
      AccountsValid(accounts) && LedgerValid(accounts, transactions, splits) && UsersValid(users)
    }

    /** An empty database satisfies every constraint. */
    constructor()
      ensures Valid()
      ensures accounts == map[] && transactions == map[] && splits == [] && users == map[]
    {
      accounts := map[];
      transactions := map[];
      splits := [];
      users := map[];
      new;
      assert LinksOf(accounts) == map[];
    }
  }
}
