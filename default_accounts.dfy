/**
 * The default chart of accounts every new user starts with: five
 * placeholder roots (Assets, Liabilities, Equity, Income, Expenses) and
 * nineteen accounts below them, all in US dollars. Each account is
 * inserted before its children, with the full name built from its
 * parent's and the normal balance derived from its type.
 */
module DefaultAccounts {
  import opened Wrappers
  import opened Uuid
  import opened Tables
  import opened Store
  import AccountService

  datatype DefaultAccount = DefaultAccount(
    name: string,
    accountType: AccountType,
    currency: Currency,
    placeholder: bool,
    description: Option<string>,
    children: seq<DefaultAccount>)

  function Leaf(name: string, t: AccountType): DefaultAccount {
    DefaultAccount(name, t, USD, false, None, [])
  }

  function Group(name: string, t: AccountType, children: seq<DefaultAccount>): DefaultAccount {
    DefaultAccount(name, t, USD, true, None, children)
  }

  const Bank := Group("Bank", ASSET, [Leaf("Checking", ASSET)])
  const Assets := Group("Assets", ASSET, [Leaf("Cash", ASSET), Bank, Group("Investments", ASSET, [])])
  const Liabilities := Group("Liabilities", LIABILITY, [Leaf("Credit Card", LIABILITY), Group("Loans", LIABILITY, [])])
  const Equity := Group("Equity", EQUITY, [Leaf("Opening Balances", EQUITY), Leaf("Retained Earnings", EQUITY)])
  const Income := Group("Income", INCOME, [Leaf("Salary", INCOME), Leaf("Interest", INCOME), Leaf("Other Income", INCOME)])
  const Food := Group("Food", EXPENSE, [Leaf("Groceries", EXPENSE), Leaf("Restaurants", EXPENSE)])
  const Housing := Group("Housing", EXPENSE, [Leaf("Rent", EXPENSE), Leaf("Utilities", EXPENSE)])
  const Expenses := Group("Expenses", EXPENSE, [Food, Housing, Leaf("Transportation", EXPENSE), Leaf("Entertainment", EXPENSE)])

  /** The roots in the order they are created. */
  const Chart: seq<DefaultAccount> := [Assets, Liabilities, Equity, Income, Expenses]

  /** Number of accounts in a default subtree. */
  function Size(d: DefaultAccount): nat
    decreases d, 1
  {
    1 + SizeAll(d.children)
  }

  function SizeAll(ds: seq<DefaultAccount>): nat
    decreases ds, 0
  {
    if ds == [] then 0 else SizeAll(ds[..|ds| - 1]) + Size(ds[|ds| - 1])
  }

  /** Children share their parent's type and no two siblings share a name, all the way down. */
  ghost predicate Sound(d: DefaultAccount)
    decreases d
  {
    (forall i :: 0 <= i < |d.children| ==> d.children[i].accountType == d.accountType && Sound(d.children[i]))
    && (forall i, j :: 0 <= i < j < |d.children| ==> d.children[i].name != d.children[j].name)
  }

  lemma LeafShape(d: DefaultAccount)
    requires d.children == []
    ensures Size(d) == 1 && Sound(d)
  {
  }

  lemma GroupShape(d: DefaultAccount)
    requires forall i :: 0 <= i < |d.children| ==> d.children[i].accountType == d.accountType && Sound(d.children[i])
    requires forall i, j :: 0 <= i < j < |d.children| ==> d.children[i].name != d.children[j].name
    ensures Sound(d)
  {
  }

  lemma SizeSnoc(ds: seq<DefaultAccount>, d: DefaultAccount)
    ensures SizeAll(ds + [d]) == SizeAll(ds) + Size(d)
  {
    assert (ds + [d])[..|ds|] == ds;
  }

  lemma Size2(a: DefaultAccount, b: DefaultAccount)
    ensures SizeAll([a, b]) == Size(a) + Size(b)
  {
    SizeSnoc([a], b);
    assert [a] + [b] == [a, b];
    SizeSnoc([], a);
    assert [] + [a] == [a];
  }

  lemma Size3(a: DefaultAccount, b: DefaultAccount, c: DefaultAccount)
    ensures SizeAll([a, b, c]) == Size(a) + Size(b) + Size(c)
  {
    Size2(a, b);
    SizeSnoc([a, b], c);
    assert [a, b] + [c] == [a, b, c];
  }

  lemma Size4(a: DefaultAccount, b: DefaultAccount, c: DefaultAccount, d: DefaultAccount)
    ensures SizeAll([a, b, c, d]) == Size(a) + Size(b) + Size(c) + Size(d)
  {
    Size3(a, b, c);
    SizeSnoc([a, b, c], d);
    assert [a, b, c] + [d] == [a, b, c, d];
  }

  lemma BankShape()
    ensures Size(Bank) == 2 && Sound(Bank)
  {
    LeafShape(Leaf("Checking", ASSET));
    SizeSnoc([], Leaf("Checking", ASSET));
    assert [] + [Leaf("Checking", ASSET)] == Bank.children;
  }

  lemma AssetsShape()
    ensures Size(Assets) == 5 && Sound(Assets)
  {
    LeafShape(Leaf("Cash", ASSET));
    BankShape();
    LeafShape(Group("Investments", ASSET, []));
    Size3(Leaf("Cash", ASSET), Bank, Group("Investments", ASSET, []));
  }

  lemma LiabilitiesShape()
    ensures Size(Liabilities) == 3 && Sound(Liabilities)
  {
    LeafShape(Leaf("Credit Card", LIABILITY));
    LeafShape(Group("Loans", LIABILITY, []));
    Size2(Leaf("Credit Card", LIABILITY), Group("Loans", LIABILITY, []));
  }

  lemma EquityShape()
    ensures Size(Equity) == 3 && Sound(Equity)
  {
    LeafShape(Leaf("Opening Balances", EQUITY));
    LeafShape(Leaf("Retained Earnings", EQUITY));
    Size2(Leaf("Opening Balances", EQUITY), Leaf("Retained Earnings", EQUITY));
  }

  lemma IncomeShape()
    ensures Size(Income) == 4 && Sound(Income)
  {
    LeafShape(Leaf("Salary", INCOME));
    LeafShape(Leaf("Interest", INCOME));
    LeafShape(Leaf("Other Income", INCOME));
    Size3(Leaf("Salary", INCOME), Leaf("Interest", INCOME), Leaf("Other Income", INCOME));
  }

  lemma FoodShape()
    ensures Size(Food) == 3 && Sound(Food)
  {
    LeafShape(Leaf("Groceries", EXPENSE));
    LeafShape(Leaf("Restaurants", EXPENSE));
    Size2(Leaf("Groceries", EXPENSE), Leaf("Restaurants", EXPENSE));
  }

  lemma HousingShape()
    ensures Size(Housing) == 3 && Sound(Housing)
  {
    LeafShape(Leaf("Rent", EXPENSE));
    LeafShape(Leaf("Utilities", EXPENSE));
    Size2(Leaf("Rent", EXPENSE), Leaf("Utilities", EXPENSE));
  }

  lemma ExpensesShape()
    ensures Size(Expenses) == 9 && Sound(Expenses)
  {
    FoodShape();
    HousingShape();
    LeafShape(Leaf("Transportation", EXPENSE));
    LeafShape(Leaf("Entertainment", EXPENSE));
    Size4(Food, Housing, Leaf("Transportation", EXPENSE), Leaf("Entertainment", EXPENSE));
  }

  /** The chart creates twenty-four accounts. */
  lemma ChartSize()
    ensures SizeAll(Chart) == 24
  {
    AssetsShape();
    LiabilitiesShape();
    EquityShape();
    IncomeShape();
    ExpensesShape();
    Size4(Assets, Liabilities, Equity, Income);
    SizeSnoc([Assets, Liabilities, Equity, Income], Expenses);
    assert [Assets, Liabilities, Equity, Income] + [Expenses] == Chart;
  }

  /** Every root of the chart is sound. */
  lemma ChartSound(i: int)
    requires 0 <= i < |Chart|
    ensures Sound(Chart[i])
  {
    if i == 0 {
      AssetsShape();
    } else if i == 1 {
      LiabilitiesShape();
    } else if i == 2 {
      EquityShape();
    } else if i == 3 {
      IncomeShape();
    } else {
      ExpensesShape();
    }
  }

  // ------------------------------------------------------------- the rows

  /** `"$parentFullName:$name"`, or the bare name at the root. */
  function FullNameOf(parentFullName: Option<string>, name: string): string {
    if parentFullName.Some? then parentFullName.value + ":" + name else name
  }

  function RowOf(owner: Id, d: DefaultAccount, id: Id, parent: Option<Id>, parentFullName: Option<string>,
                 now: Instant): AccountRow {
    AccountRow(id, owner, parent, d.name, FullNameOf(parentFullName, d.name), d.accountType,
               FromAccountType(d.accountType), d.currency, d.description, d.placeholder, now, now)
  }

  /** The rows a default subtree is inserted as, its accounts taking `ids` in pre-order. */
  function Rows(owner: Id, d: DefaultAccount, parent: Option<Id>, parentFullName: Option<string>,
                ids: seq<Id>, now: Instant): map<Id, AccountRow>
    requires |ids| == Size(d)
    decreases d, 1
  {
    var row := RowOf(owner, d, ids[0], parent, parentFullName, now);
    map[ids[0] := row] + RowsAll(owner, d.children, Some(ids[0]), Some(row.fullName), ids[1..], now)
  }

  function RowsAll(owner: Id, ds: seq<DefaultAccount>, parent: Option<Id>, parentFullName: Option<string>,
                   ids: seq<Id>, now: Instant): map<Id, AccountRow>
    requires |ids| == SizeAll(ds)
    decreases ds, 0
  {
    if ds == [] then map[]
    else
      var n := SizeAll(ds[..|ds| - 1]);
      RowsAll(owner, ds[..|ds| - 1], parent, parentFullName, ids[..n], now)
      + Rows(owner, ds[|ds| - 1], parent, parentFullName, ids[n..], now)
  }

  ghost predicate Distinct(ids: seq<Id>) {
    forall a, b :: 0 <= a < b < |ids| ==> ids[a] != ids[b]
  }

  /**
   * The rows of a subtree are keyed by exactly its ids; each is either the
   * subtree's root, under `parent`, or hangs under one of the ids.
   */
  lemma {:induction false} RowsShape(owner: Id, d: DefaultAccount, parent: Option<Id>, parentFullName: Option<string>,
                                     ids: seq<Id>, now: Instant)
    requires |ids| == Size(d)
    ensures var rows := Rows(owner, d, parent, parentFullName, ids, now);
      (forall y :: y in rows <==> y in ids)
      && forall y :: y in rows ==>
           rows[y] == RowOf(owner, d, ids[0], parent, parentFullName, now)
           || (rows[y].parent.Some? && rows[y].parent.value in ids)
    decreases d, 1
  {
    var row := RowOf(owner, d, ids[0], parent, parentFullName, now);
    var below := RowsAll(owner, d.children, Some(ids[0]), Some(row.fullName), ids[1..], now);
    RowsAllShape(owner, d.children, Some(ids[0]), Some(row.fullName), ids[1..], now);
    var rows := Rows(owner, d, parent, parentFullName, ids, now);
    assert rows == map[ids[0] := row] + below;
    forall y
      ensures y in rows <==> y in ids
    {
      assert y in ids <==> y == ids[0] || y in ids[1..] by {
        assert ids == [ids[0]] + ids[1..];
      }
    }
    forall y | y in rows
      ensures rows[y] == row || (rows[y].parent.Some? && rows[y].parent.value in ids)
    {
      if y in below {
        assert rows[y] == below[y];
        var p := below[y].parent;
        assert p == Some(ids[0]) || (p.Some? && p.value in ids[1..]);
      }
    }
  }

  lemma {:induction false} RowsAllShape(owner: Id, ds: seq<DefaultAccount>, parent: Option<Id>,
                                        parentFullName: Option<string>, ids: seq<Id>, now: Instant)
    requires |ids| == SizeAll(ds)
    ensures var rows := RowsAll(owner, ds, parent, parentFullName, ids, now);
      (forall y :: y in rows <==> y in ids)
      && forall y :: y in rows ==> rows[y].parent == parent || (rows[y].parent.Some? && rows[y].parent.value in ids)
    decreases ds, 0
  {
    if ds != [] {
      var n := SizeAll(ds[..|ds| - 1]);
      var front := RowsAll(owner, ds[..|ds| - 1], parent, parentFullName, ids[..n], now);
      var last := Rows(owner, ds[|ds| - 1], parent, parentFullName, ids[n..], now);
      RowsAllShape(owner, ds[..|ds| - 1], parent, parentFullName, ids[..n], now);
      RowsShape(owner, ds[|ds| - 1], parent, parentFullName, ids[n..], now);
      var rows := RowsAll(owner, ds, parent, parentFullName, ids, now);
      assert rows == front + last;
      forall y
        ensures y in rows <==> y in ids
      {
        assert y in ids <==> y in ids[..n] || y in ids[n..] by {
          assert ids == ids[..n] + ids[n..];
        }
      }
      forall y | y in rows
        ensures rows[y].parent == parent || (rows[y].parent.Some? && rows[y].parent.value in ids)
      {
        var p := rows[y].parent;
        if y in last {
          assert p == parent || (p.Some? && p.value in ids[n..]);
        } else {
          assert p == parent || (p.Some? && p.value in ids[..n]);
        }
      }
    }
  }

  // ------------------------------------------------------------ the inserts

  /** Every id is canonical and not yet taken. */
  ghost predicate Unused(accounts: map<Id, AccountRow>, ids: seq<Id>) {
    forall k :: 0 <= k < |ids| ==> Canonical(ids[k]) && ids[k] !in accounts
  }

  lemma {:induction false} SizePrefix(ds: seq<DefaultAccount>, j: nat)
    requires j <= |ds|
    ensures SizeAll(ds[..j]) <= SizeAll(ds)
    decreases |ds| - j
  {
    if j < |ds| {
      SizePrefix(ds, j + 1);
      assert ds[..j + 1][..j] == ds[..j];
    } else {
      assert ds[..j] == ds;
    }
  }

  lemma DistinctSlice(ids: seq<Id>, lo: nat, hi: nat)
    requires Distinct(ids) && lo <= hi <= |ids|
    ensures Distinct(ids[lo..hi])
    ensures forall k :: 0 <= k < |ids| && !(lo <= k < hi) ==> ids[k] !in ids[lo..hi]
  {
  }

  lemma PrefixStep(ds: seq<DefaultAccount>, j: nat)
    requires j < |ds|
    ensures SizeAll(ds[..j + 1]) == SizeAll(ds[..j]) + Size(ds[j])
  {
    assert ds[..j + 1][..j] == ds[..j];
  }

  /** One more subtree of a sibling list: its rows take the next ids. */
  lemma RowsAllSnoc(owner: Id, ds: seq<DefaultAccount>, j: nat, parent: Option<Id>, parentFullName: Option<string>,
                    ids: seq<Id>, taken: nat, taken': nat, now: Instant)
    requires j < |ds| && taken == SizeAll(ds[..j]) && taken' == taken + Size(ds[j]) && taken' <= |ids|
    ensures SizeAll(ds[..j + 1]) == taken'
    ensures RowsAll(owner, ds[..j + 1], parent, parentFullName, ids[..taken'], now)
      == RowsAll(owner, ds[..j], parent, parentFullName, ids[..taken], now)
         + Rows(owner, ds[j], parent, parentFullName, ids[taken..taken'], now)
  {
    PrefixStep(ds, j);
    assert ds[..j + 1][..j] == ds[..j];
    assert ids[..taken'][..taken] == ids[..taken];
    assert ids[..taken'][taken..] == ids[taken..taken'];
  }

  /** A subtree can go in: its ids are free and distinct, and its root fits under `parent` with no namesake. */
  ghost predicate Ready(accounts: map<Id, AccountRow>, owner: Id, d: DefaultAccount, parent: Option<Id>,
                        parentFullName: Option<string>, ids: seq<Id>, now: Instant)
  {
    && Sound(d) && |ids| == Size(d) && Distinct(ids) && Unused(accounts, ids)
    && ParentFits(accounts, RowOf(owner, d, ids[0], parent, parentFullName, now))
    && (parent.Some? ==> AccountService.Namesakes(accounts, owner, parent, d.name) == {})
  }

  /**
   * `createAccountRecursive`: inserts the subtree's root, its full name
   * built from `parentFullName`, then each child's subtree under it, in
   * order. The fresh identifiers the source draws at random are `ids`,
   * consumed in pre-order.
   */
  method CreateAccountRecursive(db: Database, owner: Id, d: DefaultAccount, parent: Option<Id>,
                                parentFullName: Option<string>, ids: seq<Id>, now: Instant)
    requires db.Valid() && Ready(db.accounts, owner, d, parent, parentFullName, ids, now)
    modifies db
    ensures db.Valid()
    ensures db.accounts == old(db.accounts) + Rows(owner, d, parent, parentFullName, ids, now)
    ensures db.transactions == old(db.transactions) && db.splits == old(db.splits) && db.users == old(db.users)
    decreases d, 1
  {
    var id := ids[0];
    var row := RowOf(owner, d, id, parent, parentFullName, now);
    AccountService.InsertKeepsAccounts(db.accounts, row);
    LedgerKeepsAccounts(db.accounts, db.accounts[id := row], db.transactions, db.splits);
    RootInserted(db.accounts, owner, d, parent, parentFullName, ids, now);
    db.accounts := db.accounts[id := row];
    ghost var base := db.accounts;
    var taken: nat := 0;
    for j := 0 to |d.children|
      invariant db.Valid()
      invariant ChildrenInserted(db.accounts, base, owner, d, j, row, ids, taken, now)
      invariant db.transactions == old(db.transactions) && db.splits == old(db.splits) && db.users == old(db.users)
    {
      taken := CreateChild(db, owner, d, j, row, ids, taken, now, base);
    }
    AllInserted(old(db.accounts), db.accounts, owner, d, parent, parentFullName, ids, taken, now);
  }

  /** Right after the root goes in, the loop over its children starts from an empty prefix. */
  lemma RootInserted(accounts: map<Id, AccountRow>, owner: Id, d: DefaultAccount, parent: Option<Id>,
                     parentFullName: Option<string>, ids: seq<Id>, now: Instant)
    requires AccountsValid(accounts) && Ready(accounts, owner, d, parent, parentFullName, ids, now)
    ensures var row := RowOf(owner, d, ids[0], parent, parentFullName, now);
      ChildrenInserted(accounts[ids[0] := row], accounts[ids[0] := row], owner, d, 0, row, ids, 0, now)
  {
    var row := RowOf(owner, d, ids[0], parent, parentFullName, now);
    var base := accounts[ids[0] := row];
    assert d.children[..0] == [];
    assert base + map[] == base;
    DistinctSlice(ids, 1, |ids|);
    forall k | 0 <= k < |ids[1..]|
      ensures Canonical(ids[1..][k]) && ids[1..][k] !in base
    {
      assert ids[1..][k] == ids[k + 1];
    }
    assert ids[0] !in accounts;
    forall k | 0 <= k < |d.children|
      ensures AccountService.Namesakes(base, owner, Some(ids[0]), d.children[k].name) == {}
    {
      forall y | y in base
        ensures base[y].parent != Some(ids[0])
      {
        if y in accounts {
          assert ParentFits(accounts, accounts[y]);
        }
      }
    }
  }

  /** Once every child's subtree is in, the table holds exactly the subtree's rows on top of the old ones. */
  lemma AllInserted(accounts: map<Id, AccountRow>, final: map<Id, AccountRow>, owner: Id, d: DefaultAccount,
                    parent: Option<Id>, parentFullName: Option<string>, ids: seq<Id>, taken: nat, now: Instant)
    requires |ids| == Size(d)
    requires var row := RowOf(owner, d, ids[0], parent, parentFullName, now);
      ChildrenInserted(final, accounts[ids[0] := row], owner, d, |d.children|, row, ids, taken, now)
    ensures final == accounts + Rows(owner, d, parent, parentFullName, ids, now)
  {
    var row := RowOf(owner, d, ids[0], parent, parentFullName, now);
    assert d.children[..|d.children|] == d.children;
    assert ids[1..][..|ids| - 1] == ids[1..];
    var below := RowsAll(owner, d.children, Some(ids[0]), Some(row.fullName), ids[1..], now);
    assert final == accounts[ids[0] := row] + below;
    assert Rows(owner, d, parent, parentFullName, ids, now) == map[ids[0] := row] + below;
  }

  /** The invariant of the loop over `d`'s children once `j` of them, using `taken` ids, are in. */
  ghost predicate ChildrenInserted(accounts: map<Id, AccountRow>, base: map<Id, AccountRow>, owner: Id,
                                   d: DefaultAccount, j: nat, row: AccountRow, ids: seq<Id>, taken: nat, now: Instant)
  {
    && j <= |d.children| && |ids| == Size(d) && row.id == ids[0]
    && TablePart(accounts, base, owner, d, j, row, ids, taken, now)
    && FreshPart(accounts, owner, d, j, row, ids, taken)
  }

  /** The table is the base plus the rows of the first `j` children, which took `taken` ids. */
  ghost predicate TablePart(accounts: map<Id, AccountRow>, base: map<Id, AccountRow>, owner: Id,
                            d: DefaultAccount, j: nat, row: AccountRow, ids: seq<Id>, taken: nat, now: Instant)
  {
    && j <= |d.children| && taken == SizeAll(d.children[..j]) && 1 + taken <= |ids|
    && accounts == base + RowsAll(owner, d.children[..j], Some(row.id), Some(row.fullName), ids[1..][..taken], now)
  }

  /** The parent row is in, the ids not yet used are free, and so are the names of the children still to come. */
  ghost predicate FreshPart(accounts: map<Id, AccountRow>, owner: Id, d: DefaultAccount, j: nat, row: AccountRow,
                            ids: seq<Id>, taken: nat)
  {
    && row.id in accounts && accounts[row.id] == row
    && 1 + taken <= |ids| && Unused(accounts, ids[1 + taken..])
    && forall k :: j <= k < |d.children| ==> AccountService.Namesakes(accounts, owner, Some(row.id), d.children[k].name) == {}
  }

  /** One pass of the loop over the children: the `j`th child's subtree goes in. */
  method CreateChild(db: Database, owner: Id, d: DefaultAccount, j: nat, row: AccountRow, ids: seq<Id>,
                     taken: nat, now: Instant, ghost base: map<Id, AccountRow>)
    returns (taken': nat)
    requires db.Valid() && Sound(d) && Distinct(ids) && j < |d.children|
    requires row.owner == owner && row.accountType == d.accountType
    requires ChildrenInserted(db.accounts, base, owner, d, j, row, ids, taken, now)
    modifies db
    ensures db.Valid()
    ensures ChildrenInserted(db.accounts, base, owner, d, j + 1, row, ids, taken', now)
    ensures db.transactions == old(db.transactions) && db.splits == old(db.splits) && db.users == old(db.users)
    decreases d, 0
  {
    taken' := taken + Size(d.children[j]);
    ChildFits(db.accounts, base, owner, d, j, row, ids, taken, taken', now);
    ghost var before := db.accounts;
    CreateAccountRecursive(db, owner, d.children[j], Some(row.id), Some(row.fullName), ids[1 + taken..1 + taken'], now);
    ChildStep(before, base, owner, d, j, row, ids, taken, taken', now);
  }

  /** The `j`th child's subtree can go in: its ids are free and no sibling already has its name. */
  lemma ChildFits(accounts: map<Id, AccountRow>, base: map<Id, AccountRow>, owner: Id, d: DefaultAccount, j: nat,
                  row: AccountRow, ids: seq<Id>, taken: nat, taken': nat, now: Instant)
    requires Sound(d) && Distinct(ids) && j < |d.children| && taken' == taken + Size(d.children[j])
    requires row.owner == owner && row.accountType == d.accountType
    requires ChildrenInserted(accounts, base, owner, d, j, row, ids, taken, now)
    ensures 1 + taken' <= |ids|
    ensures Ready(accounts, owner, d.children[j], Some(row.id), Some(row.fullName), ids[1 + taken..1 + taken'], now)
  {
    ChildIdsFit(d, j, ids, taken, taken');
    ChildFresh(accounts, owner, d, j, row, ids, taken, taken', now);
  }

  /** The `j`th child's ids lie within the parent's. */
  lemma ChildIdsFit(d: DefaultAccount, j: nat, ids: seq<Id>, taken: nat, taken': nat)
    requires j < |d.children| && |ids| == Size(d) && taken == SizeAll(d.children[..j])
    requires taken' == taken + Size(d.children[j])
    ensures 1 + taken' <= |ids|
  {
    SizePrefix(d.children, j + 1);
    assert d.children[..|d.children|] == d.children;
    PrefixStep(d.children, j);
  }

  lemma ChildFresh(accounts: map<Id, AccountRow>, owner: Id, d: DefaultAccount, j: nat,
                   row: AccountRow, ids: seq<Id>, taken: nat, taken': nat, now: Instant)
    requires Sound(d) && Distinct(ids) && j < |d.children| && taken' == taken + Size(d.children[j]) && 1 + taken' <= |ids|
    requires row.owner == owner && row.accountType == d.accountType
    requires FreshPart(accounts, owner, d, j, row, ids, taken)
    ensures Ready(accounts, owner, d.children[j], Some(row.id), Some(row.fullName), ids[1 + taken..1 + taken'], now)
  {
    var lo, hi := 1 + taken, 1 + taken';
    DistinctSlice(ids, lo, hi);
    forall k | 0 <= k < hi - lo
      ensures Canonical(ids[lo..hi][k]) && ids[lo..hi][k] !in accounts
    {
      assert ids[lo..hi][k] == ids[lo..][k];
    }
  }

  /** What inserting the `j`th child's subtree keeps of the loop's invariant. */
  lemma ChildStep(before: map<Id, AccountRow>, base: map<Id, AccountRow>, owner: Id,
                  d: DefaultAccount, j: nat, row: AccountRow, ids: seq<Id>, taken: nat, taken': nat, now: Instant)
    requires Sound(d) && Distinct(ids) && j < |d.children|
    requires ChildrenInserted(before, base, owner, d, j, row, ids, taken, now)
    requires taken' == taken + Size(d.children[j]) && 1 + taken' <= |ids|
    ensures ChildrenInserted(before + Rows(owner, d.children[j], Some(row.id), Some(row.fullName),
                                           ids[1 + taken..1 + taken'], now),
                             base, owner, d, j + 1, row, ids, taken', now)
  {
    StepTable(before, base, owner, d, j, row, ids, taken, taken', now);
    StepFresh(before, owner, d, j, row, ids, taken, taken', now);
  }

  /** The table grows by the `j`th sibling's rows, matching the sibling prefix one longer. */
  lemma StepTable(before: map<Id, AccountRow>, base: map<Id, AccountRow>, owner: Id, d: DefaultAccount,
                  j: nat, row: AccountRow, ids: seq<Id>, taken: nat, taken': nat, now: Instant)
    requires j < |d.children| && taken' == taken + Size(d.children[j]) && 1 + taken' <= |ids|
    requires TablePart(before, base, owner, d, j, row, ids, taken, now)
    ensures TablePart(before + Rows(owner, d.children[j], Some(row.id), Some(row.fullName), ids[1 + taken..1 + taken'], now),
                      base, owner, d, j + 1, row, ids, taken', now)
  {
    var rest := ids[1..];
    var prior := RowsAll(owner, d.children[..j], Some(row.id), Some(row.fullName), rest[..taken], now);
    assert before == base + prior;
    RowsAllSnoc(owner, d.children, j, Some(row.id), Some(row.fullName), rest, taken, taken', now);
    SliceShift(ids, taken, taken');
    var rows := Rows(owner, d.children[j], Some(row.id), Some(row.fullName), ids[1 + taken..1 + taken'], now);
    var after := RowsAll(owner, d.children[..j + 1], Some(row.id), Some(row.fullName), rest[..taken'], now);
    assert after == prior + rows;
    assert before + rows == base + after by {
      UnionAssoc(base, prior, rows);
    }
    assert taken' == SizeAll(d.children[..j + 1]);
  }

  lemma SliceShift(ids: seq<Id>, lo: nat, hi: nat)
    requires lo <= hi && 1 + hi <= |ids|
    ensures ids[1 + lo..1 + hi] == ids[1..][lo..hi]
  {
    var a, b := ids[1 + lo..1 + hi], ids[1..][lo..hi];
    assert |a| == |b|;
    forall k | 0 <= k < |a|
      ensures a[k] == b[k]
    {
      assert a[k] == ids[1 + lo + k];
      assert b[k] == ids[1..][lo + k] == ids[1 + lo + k];
    }
  }

  lemma UnionAssoc(a: map<Id, AccountRow>, b: map<Id, AccountRow>, c: map<Id, AccountRow>)
    ensures (a + b) + c == a + (b + c)
  {
  }

  /**
   * After the `j`th child's subtree goes in, the parent row is untouched,
   * the ids after the subtree's are still free, and the later siblings'
   * names are still free under the parent.
   */
  lemma StepFresh(before: map<Id, AccountRow>, owner: Id, d: DefaultAccount, j: nat, row: AccountRow,
                  ids: seq<Id>, taken: nat, taken': nat, now: Instant)
    requires Sound(d) && Distinct(ids) && j < |d.children| && |ids| == Size(d) && row.id == ids[0]
    requires taken' == taken + Size(d.children[j]) && 1 + taken' <= |ids|
    requires FreshPart(before, owner, d, j, row, ids, taken)
    ensures FreshPart(before + Rows(owner, d.children[j], Some(row.id), Some(row.fullName), ids[1 + taken..1 + taken'], now),
                      owner, d, j + 1, row, ids, taken')
  {
    var c := d.children[j];
    var id, fullName := row.id, row.fullName;
    var lo, hi := 1 + taken, 1 + taken';
    var sub := ids[lo..hi];
    var rows := Rows(owner, c, Some(id), Some(fullName), sub, now);
    var after := before + rows;
    RowsShape(owner, c, Some(id), Some(fullName), sub, now);
    DistinctSlice(ids, lo, hi);
    assert id !in sub;
    forall k | 0 <= k < |ids[hi..]|
      ensures Canonical(ids[hi..][k]) && ids[hi..][k] !in after
    {
      assert ids[hi..][k] == ids[lo..][k + Size(c)];
      assert ids[hi + k] !in sub;
    }
    forall k | j < k < |d.children|
      ensures AccountService.Namesakes(after, owner, Some(id), d.children[k].name) == {}
    {
      forall y | y in rows && rows[y].owner == owner && rows[y].parent == Some(id)
        ensures rows[y].name != d.children[k].name
      {
        assert rows[y] == RowOf(owner, c, sub[0], Some(id), Some(fullName), now);
      }
      assert AccountService.Namesakes(before, owner, Some(id), d.children[k].name) == {};
    }
  }

  // ------------------------------------------------------------ the chart

  /**
   * `createDefaultAccounts`: inserts each root of the chart, with no
   * parent, together with its subtree, in order. The fresh identifiers
   * the source draws at random are `ids`, consumed in pre-order;
   * `ChartSize` shows there are twenty-four.
   */
  method CreateDefaultAccounts(db: Database, userId: Id, ids: seq<Id>, now: Instant)
    requires db.Valid()
    requires |ids| == SizeAll(Chart) && Distinct(ids) && Unused(db.accounts, ids)
    modifies db
    ensures db.Valid()
    ensures db.accounts == old(db.accounts) + RowsAll(userId, Chart, None, None, ids, now)
    ensures db.transactions == old(db.transactions) && db.splits == old(db.splits) && db.users == old(db.users)
  {
    ChartSize();
    ghost var start := db.accounts;
    assert Chart[..0] == [] && ids[..0] == [] && ids[0..] == ids;
    assert start + map[] == start;
    var taken: nat := 0;
    for j := 0 to |Chart|
      invariant db.Valid()
      invariant RootsInserted(db.accounts, start, userId, j, ids, taken, now)
      invariant db.transactions == old(db.transactions) && db.splits == old(db.splits) && db.users == old(db.users)
    {
      taken := CreateRoot(db, userId, j, ids, taken, now, start);
    }
    assert Chart[..|Chart|] == Chart && ids[..|ids|] == ids;
  }

  /** The loop over the chart's roots once `j` of them, using `taken` ids, are in. */
  ghost predicate RootsInserted(accounts: map<Id, AccountRow>, start: map<Id, AccountRow>, owner: Id, j: nat,
                                ids: seq<Id>, taken: nat, now: Instant)
  {
    && j <= |Chart| && |ids| == SizeAll(Chart) && taken == SizeAll(Chart[..j]) && taken <= |ids|
    && accounts == start + RowsAll(owner, Chart[..j], None, None, ids[..taken], now)
    && Unused(accounts, ids[taken..])
  }

  /** One pass of the loop over the chart: the `j`th root and its subtree go in. */
  method CreateRoot(db: Database, owner: Id, j: nat, ids: seq<Id>, taken: nat, now: Instant,
                    ghost start: map<Id, AccountRow>)
    returns (taken': nat)
    requires db.Valid() && Distinct(ids) && j < |Chart|
    requires RootsInserted(db.accounts, start, owner, j, ids, taken, now)
    modifies db
    ensures db.Valid()
    ensures RootsInserted(db.accounts, start, owner, j + 1, ids, taken', now)
    ensures db.transactions == old(db.transactions) && db.splits == old(db.splits) && db.users == old(db.users)
  {
    taken' := taken + Size(Chart[j]);
    RootFits(db.accounts, start, owner, j, ids, taken, taken', now);
    ghost var before := db.accounts;
    CreateAccountRecursive(db, owner, Chart[j], None, None, ids[taken..taken'], now);
    RootStep(before, start, owner, j, ids, taken, taken', now);
  }

  /** The `j`th root can go in: its ids are free; roots never clash by name, as the index ignores a null parent. */
  lemma RootFits(accounts: map<Id, AccountRow>, start: map<Id, AccountRow>, owner: Id, j: nat, ids: seq<Id>,
                 taken: nat, taken': nat, now: Instant)
    requires Distinct(ids) && j < |Chart| && taken' == taken + Size(Chart[j])
    requires RootsInserted(accounts, start, owner, j, ids, taken, now)
    ensures taken' <= |ids|
    ensures Ready(accounts, owner, Chart[j], None, None, ids[taken..taken'], now)
  {
    SizePrefix(Chart, j + 1);
    assert Chart[..|Chart|] == Chart;
    PrefixStep(Chart, j);
    ChartSound(j);
    DistinctSlice(ids, taken, taken');
    forall k | 0 <= k < taken' - taken
      ensures Canonical(ids[taken..taken'][k]) && ids[taken..taken'][k] !in accounts
    {
      assert ids[taken..taken'][k] == ids[taken..][k];
    }
  }

  /** What inserting the `j`th root's subtree keeps of the loop's invariant. */
  lemma RootStep(before: map<Id, AccountRow>, start: map<Id, AccountRow>, owner: Id, j: nat, ids: seq<Id>,
                 taken: nat, taken': nat, now: Instant)
    requires Distinct(ids) && j < |Chart| && taken' == taken + Size(Chart[j]) && taken' <= |ids|
    requires RootsInserted(before, start, owner, j, ids, taken, now)
    ensures RootsInserted(before + Rows(owner, Chart[j], None, None, ids[taken..taken'], now), start, owner, j + 1,
                          ids, taken', now)
  {
    var prior := RowsAll(owner, Chart[..j], None, None, ids[..taken], now);
    var rows := Rows(owner, Chart[j], None, None, ids[taken..taken'], now);
    RowsAllSnoc(owner, Chart, j, None, None, ids, taken, taken', now);
    UnionAssoc(start, prior, rows);
    RootFresh(before, owner, j, ids, taken, taken', now);
  }

  lemma RootFresh(before: map<Id, AccountRow>, owner: Id, j: nat, ids: seq<Id>, taken: nat, taken': nat, now: Instant)
    requires Distinct(ids) && j < |Chart| && taken' == taken + Size(Chart[j]) && taken' <= |ids|
    requires Unused(before, ids[taken..])
    ensures Unused(before + Rows(owner, Chart[j], None, None, ids[taken..taken'], now), ids[taken'..])
  {
    SubtreeFresh(before, owner, Chart[j], ids, taken, taken', now);
  }

  /** Inserting one subtree's rows keeps the ids after its own unused. */
  lemma SubtreeFresh(before: map<Id, AccountRow>, owner: Id, d: DefaultAccount, ids: seq<Id>,
                     taken: nat, taken': nat, now: Instant)
    requires Distinct(ids) && taken' == taken + Size(d) && taken' <= |ids|
    requires Unused(before, ids[taken..])
    ensures Unused(before + Rows(owner, d, None, None, ids[taken..taken'], now), ids[taken'..])
  {
    var sub := ids[taken..taken'];
    var rows := Rows(owner, d, None, None, sub, now);
    var after := before + rows;
    assert forall y :: y in rows <==> y in sub by {
      RowsShape(owner, d, None, None, sub, now);
    }
    DistinctSlice(ids, taken, taken');
    forall k | 0 <= k < |ids[taken'..]|
      ensures Canonical(ids[taken'..][k]) && ids[taken'..][k] !in after
    {
      var x := ids[taken' + k];
      assert ids[taken'..][k] == x;
      assert ids[taken..][k + (taken' - taken)] == x;
      assert Canonical(x) && x !in before;
      assert x !in sub;
    }
  }

  // ------------------------------------------------- what the chart builds

  /**
   * A row's full name is built like `createAccountRecursive` builds it:
   * either it sits right under `parent` and extends `parentFullName`, or
   * its parent is among `rows` and it extends that row's full name.
   */
  ghost predicate NameFits(rows: map<Id, AccountRow>, r: AccountRow, parent: Option<Id>, parentFullName: Option<string>) {
    || (r.parent == parent && r.fullName == FullNameOf(parentFullName, r.name))
    || (r.parent.Some? && r.parent.value in rows && r.fullName == rows[r.parent.value].fullName + ":" + r.name)
  }

  lemma {:induction false} RowsNames(owner: Id, d: DefaultAccount, parent: Option<Id>, parentFullName: Option<string>,
                                     ids: seq<Id>, now: Instant)
    requires |ids| == Size(d) && Distinct(ids)
    ensures var rows := Rows(owner, d, parent, parentFullName, ids, now);
      && rows[ids[0]] == RowOf(owner, d, ids[0], parent, parentFullName, now)
      && forall y :: y in rows ==> NameFits(rows, rows[y], parent, parentFullName)
    decreases d, 1
  {
    var row := RowOf(owner, d, ids[0], parent, parentFullName, now);
    var below := RowsAll(owner, d.children, Some(ids[0]), Some(row.fullName), ids[1..], now);
    var rows := Rows(owner, d, parent, parentFullName, ids, now);
    DistinctSlice(ids, 1, |ids|);
    assert ids[1..|ids|] == ids[1..];
    RowsAllShape(owner, d.children, Some(ids[0]), Some(row.fullName), ids[1..], now);
    RowsAllNames(owner, d.children, Some(ids[0]), Some(row.fullName), ids[1..], now);
    assert ids[0] !in below;
    forall y | y in rows
      ensures NameFits(rows, rows[y], parent, parentFullName)
    {
      if y in below {
        assert NameFits(below, below[y], Some(ids[0]), Some(row.fullName));
        var p := below[y].parent;
        if p.Some? && p.value in below {
          assert rows[p.value] == below[p.value];
        }
      }
    }
  }

  lemma {:induction false} RowsAllNames(owner: Id, ds: seq<DefaultAccount>, parent: Option<Id>,
                                        parentFullName: Option<string>, ids: seq<Id>, now: Instant)
    requires |ids| == SizeAll(ds) && Distinct(ids)
    ensures var rows := RowsAll(owner, ds, parent, parentFullName, ids, now);
      forall y :: y in rows ==> NameFits(rows, rows[y], parent, parentFullName)
    decreases ds, 0
  {
    if ds != [] {
      var n := SizeAll(ds[..|ds| - 1]);
      var front := RowsAll(owner, ds[..|ds| - 1], parent, parentFullName, ids[..n], now);
      var last := Rows(owner, ds[|ds| - 1], parent, parentFullName, ids[n..], now);
      DistinctSlice(ids, 0, n);
      DistinctSlice(ids, n, |ids|);
      assert ids[0..n] == ids[..n] && ids[n..|ids|] == ids[n..];
      RowsAllShape(owner, ds[..|ds| - 1], parent, parentFullName, ids[..n], now);
      RowsShape(owner, ds[|ds| - 1], parent, parentFullName, ids[n..], now);
      RowsAllNames(owner, ds[..|ds| - 1], parent, parentFullName, ids[..n], now);
      RowsNames(owner, ds[|ds| - 1], parent, parentFullName, ids[n..], now);
      var rows := RowsAll(owner, ds, parent, parentFullName, ids, now);
      assert rows == front + last;
      forall y | y in rows
        ensures NameFits(rows, rows[y], parent, parentFullName)
      {
        if y in last {
          assert NameFits(last, last[y], parent, parentFullName);
        } else {
          assert NameFits(front, front[y], parent, parentFullName);
          var p := front[y].parent;
          if p.Some? && p.value in front {
            assert p.value in ids[..n];
            assert p.value !in ids[n..];
          }
        }
      }
    }
  }

  /** Every row belongs to `owner`, has the normal balance of its type, and was created and updated `now`. */
  ghost predicate Stamped(r: AccountRow, owner: Id, now: Instant) {
    r.owner == owner && r.normalBalance == FromAccountType(r.accountType) && r.createdAt == now && r.updatedAt == now
  }

  ghost predicate AllStamped(rows: map<Id, AccountRow>, owner: Id, now: Instant) {
    forall y :: y in rows ==> Stamped(rows[y], owner, now)
  }

  lemma {:induction false} RowsStamped(owner: Id, d: DefaultAccount, parent: Option<Id>, parentFullName: Option<string>,
                                       ids: seq<Id>, now: Instant)
    requires |ids| == Size(d)
    ensures AllStamped(Rows(owner, d, parent, parentFullName, ids, now), owner, now)
    decreases d, 1
  {
    var row := RowOf(owner, d, ids[0], parent, parentFullName, now);
    var below := RowsAll(owner, d.children, Some(ids[0]), Some(row.fullName), ids[1..], now);
    RowsAllStamped(owner, d.children, Some(ids[0]), Some(row.fullName), ids[1..], now);
    var rows := Rows(owner, d, parent, parentFullName, ids, now);
    assert rows == map[ids[0] := row] + below;
    forall y | y in rows
      ensures Stamped(rows[y], owner, now)
    {
      if y in below {
        assert rows[y] == below[y];
      } else {
        assert rows[y] == row;
      }
    }
  }

  lemma {:induction false} RowsAllStamped(owner: Id, ds: seq<DefaultAccount>, parent: Option<Id>,
                                          parentFullName: Option<string>, ids: seq<Id>, now: Instant)
    requires |ids| == SizeAll(ds)
    ensures AllStamped(RowsAll(owner, ds, parent, parentFullName, ids, now), owner, now)
    decreases ds, 0
  {
    if ds != [] {
      var n := SizeAll(ds[..|ds| - 1]);
      var front := RowsAll(owner, ds[..|ds| - 1], parent, parentFullName, ids[..n], now);
      var last := Rows(owner, ds[|ds| - 1], parent, parentFullName, ids[n..], now);
      RowsAllStamped(owner, ds[..|ds| - 1], parent, parentFullName, ids[..n], now);
      RowsStamped(owner, ds[|ds| - 1], parent, parentFullName, ids[n..], now);
      var rows := RowsAll(owner, ds, parent, parentFullName, ids, now);
      assert rows == front + last;
      forall y | y in rows
        ensures Stamped(rows[y], owner, now)
      {
        if y in last {
          assert rows[y] == last[y];
        } else {
          assert rows[y] == front[y];
        }
      }
    }
  }

  lemma {:induction false} DistinctCard(ids: seq<Id>)
    requires Distinct(ids)
    ensures |set y | y in ids| == |ids|
  {
    if ids != [] {
      var init := ids[..|ids| - 1];
      assert Distinct(init);
      DistinctCard(init);
      assert (set y | y in ids) == (set y | y in init) + {ids[|ids| - 1]};
      assert ids[|ids| - 1] !in init;
    }
  }

  /**
   * What `createDefaultAccounts` inserts: twenty-four rows, one per
   * identifier, all the user's, every root named by its bare name and
   * every other account by its parent's full name, a colon and its name.
   */
  lemma ChartRows(owner: Id, ids: seq<Id>, now: Instant)
    requires |ids| == SizeAll(Chart) && Distinct(ids)
    ensures var rows := RowsAll(owner, Chart, None, None, ids, now);
      && |rows| == 24
      && (forall y :: y in rows <==> y in ids)
      && forall y :: y in rows ==>
           && Stamped(rows[y], owner, now)
           && (rows[y].parent.None? ==> rows[y].fullName == rows[y].name)
           && (rows[y].parent.Some? ==>
                 rows[y].parent.value in rows
                 && rows[y].fullName == rows[rows[y].parent.value].fullName + ":" + rows[y].name)
  {
    var rows := RowsAll(owner, Chart, None, None, ids, now);
    ChartSize();
    RowsAllShape(owner, Chart, None, None, ids, now);
    RowsAllNames(owner, Chart, None, None, ids, now);
    RowsAllStamped(owner, Chart, None, None, ids, now);
    DistinctCard(ids);
    assert rows.Keys == set y | y in ids;
    forall y | y in rows
      ensures rows[y].parent.None? ==> rows[y].fullName == rows[y].name
    {
      assert NameFits(rows, rows[y], None, None);
    }
  }
}
