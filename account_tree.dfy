/**
 * The account tree of the account service: every account of one user
 * as a node holding its children in the order the query returned them,
 * and a balance that totals the account's own balance and those of all
 * accounts below it, rendered with `toPlainString`.
 */
module AccountTree {
  import opened Wrappers
  import opened Uuid
  import opened Links
  import opened Store
  import opened Decimal
  import AccountService

  datatype TreeNode = TreeNode(account: AccountRow, balance: string, children: seq<TreeNode>)

  /** The rows whose parent is `p`, in row order: the children of an account, or the roots for `None`. */
  function WithParent(rows: seq<AccountRow>, p: Option<Id>): (r: seq<AccountRow>)
    ensures forall i :: 0 <= i < |r| ==> r[i] in rows && r[i].parent == p
    ensures forall a :: a in rows && a.parent == p ==> a in r
    ensures |r| <= |rows|
  {
    if rows == [] then []
    else
      var last := rows[|rows| - 1];
      var init := rows[..|rows| - 1];
      assert rows == init + [last];
      WithParent(init, p) + (if last.parent == p then [last] else [])
  }

  /** Every row carries the parent link the forest `links` records for it. */
  ghost predicate RowsLinked(rows: seq<AccountRow>, links: Parents) {
    forall i :: 0 <= i < |rows| ==> rows[i].id in links && links[rows[i].id] == rows[i].parent
  }

  /** The balance text of a node reads back, with `BigDecimal(String)`, as the total of its subtree. */
  ghost predicate Reads(n: TreeNode, balances: map<Id, Dec>) {
    ParseDecimal(n.balance).Some? && ParseDecimal(n.balance).value.scale >= 0
    && Value(ParseDecimal(n.balance).value) == Total(n, balances)
  }

  /** `balances[id] ?: BigDecimal.ZERO`. */
  function Own(balances: map<Id, Dec>, id: Id): Dec {
    if id in balances then balances[id] else Zero
  }

  /** The total of the own balances of every account in a subtree. */
  ghost function Total(n: TreeNode, balances: map<Id, Dec>): real
    decreases n, 1
  {
    Value(Own(balances, n.account.id)) + TotalAll(n.children, balances)
  }

  ghost function TotalAll(ns: seq<TreeNode>, balances: map<Id, Dec>): real
    decreases ns, 0
  {
    if ns == [] then 0.0 else TotalAll(ns[..|ns| - 1], balances) + Total(ns[|ns| - 1], balances)
  }

  /**
   * A node built from `rows`: its children are the rows under it in row
   * order, each built the same way, and its balance reads back as the
   * total of its subtree.
   */
  ghost predicate Built(n: TreeNode, rows: seq<AccountRow>, balances: map<Id, Dec>)
    decreases n
  {
    var kids := WithParent(rows, Some(n.account.id));
    |n.children| == |kids|
    && (forall i :: 0 <= i < |kids| ==> n.children[i].account == kids[i] && Built(n.children[i], rows, balances))
    && Reads(n, balances)
  }

  /** `childNodes.sumOf { BigDecimal(it.balance) }`: left to right from `ZERO`. */
  function SumBalances(ns: seq<TreeNode>, ghost balances: map<Id, Dec>): (d: Dec)
    requires forall i :: 0 <= i < |ns| ==> Reads(ns[i], balances)
    ensures d.scale >= 0 && IntScale(d.scale)
    ensures Value(d) == TotalAll(ns, balances)
  {
    if ns == [] then Zero
    else
      var init := SumBalances(ns[..|ns| - 1], balances);
      assert Reads(ns[|ns| - 1], balances);
      var last := ParseDecimal(ns[|ns| - 1].balance).value;
      AddValue(init, last);
      Add(init, last)
  }

  /** The node of `account` over already built children: its total rendered with `toPlainString`. */
  function MakeNode(account: AccountRow, kids: seq<TreeNode>, balances: map<Id, Dec>): (n: TreeNode)
    requires forall id :: id in balances ==> balances[id].scale >= 0 && IntScale(balances[id].scale)
    requires forall i :: 0 <= i < |kids| ==> Reads(kids[i], balances)
    ensures n.account == account && n.children == kids && Reads(n, balances)
  {
    var own := Own(balances, account.id);
    assert own.scale >= 0 && IntScale(own.scale);
    var sum := SumBalances(kids, balances);
    var total := Add(own, sum);
    assert total.scale >= 0 && IntScale(total.scale);
    AddValue(own, sum);
    ParsePlain(total);
    var n := TreeNode(account, PlainString(total), kids);
    assert Total(n, balances) == Value(own) + TotalAll(kids, balances);
    n
  }

  /** `buildTreeNode`: the node of `account` with its children's nodes and its subtree total. */
  function BuildTreeNode(account: AccountRow, rows: seq<AccountRow>, balances: map<Id, Dec>, ghost links: Parents)
    : (n: TreeNode)
    requires Acyclic(links) && RowsLinked(rows, links) && account.id in links
    requires forall id :: id in balances ==> balances[id].scale >= 0 && IntScale(balances[id].scale)
    ensures n.account == account && Built(n, rows, balances)
    decreases |Below(links, account.id)|, 1, 0
  {
    var kids := BuildForest(WithParent(rows, Some(account.id)), rows, balances, links, account.id);
    MakeNode(account, kids, balances)
  }

  /** Appending one built node to built nodes keeps them built, in the same order as their rows. */
  lemma ForestSnoc(init: seq<TreeNode>, node: TreeNode, front: seq<AccountRow>, last: AccountRow,
                   kids: seq<AccountRow>, rows: seq<AccountRow>, balances: map<Id, Dec>)
    requires kids == front + [last] && |front| == |init| && node.account == last
    requires Built(node, rows, balances) && Reads(node, balances)
    requires forall i :: 0 <= i < |front| ==> init[i].account == front[i] && Built(init[i], rows, balances)
    requires forall i :: 0 <= i < |front| ==> Reads(init[i], balances)
    ensures forall i :: 0 <= i < |kids| ==> (init + [node])[i].account == kids[i] && Built((init + [node])[i], rows, balances)
    ensures forall i :: 0 <= i < |kids| ==> Reads((init + [node])[i], balances)
  {
    var ns := init + [node];
    forall i | 0 <= i < |kids|
      ensures ns[i].account == kids[i] && Built(ns[i], rows, balances) && Reads(ns[i], balances)
    {
      if i < |init| {
        assert ns[i] == init[i] && kids[i] == front[i];
      } else {
        assert ns[i] == node && kids[i] == last;
      }
    }
  }

  /** `children.map { buildTreeNode(it, …) }` for the children of `top`. */
  function BuildForest(kids: seq<AccountRow>, rows: seq<AccountRow>, balances: map<Id, Dec>,
                       ghost links: Parents, ghost top: Id): (ns: seq<TreeNode>)
    requires Acyclic(links) && RowsLinked(rows, links) && top in links
    requires forall i :: 0 <= i < |kids| ==> kids[i] in rows && kids[i].parent == Some(top)
    requires forall id :: id in balances ==> balances[id].scale >= 0 && IntScale(balances[id].scale)
    ensures |ns| == |kids|
    ensures forall i :: 0 <= i < |kids| ==> ns[i].account == kids[i] && Built(ns[i], rows, balances)
    ensures forall i :: 0 <= i < |kids| ==> Reads(ns[i], balances)
    decreases |Below(links, top)|, 0, |kids|
  {
    if kids == [] then []
    else
      var last := kids[|kids| - 1];
      assert last.id in links && links[last.id] == Some(top);
      BelowChild(links, top, last.id);
      var front := kids[..|kids| - 1];
      assert kids == front + [last];
      var init := BuildForest(front, rows, balances, links, top);
      var node := BuildTreeNode(last, rows, balances, links);
      ForestSnoc(init, node, front, last, kids, rows, balances);
      init + [node]
  }

  // ------------------------------------------------------------ the query

  /** The user's rows in the order the query returns them. */
  function RowsOf(accounts: map<Id, AccountRow>, order: seq<Id>): (rows: seq<AccountRow>)
    requires forall i :: 0 <= i < |order| ==> order[i] in accounts
    ensures |rows| == |order| && forall i :: 0 <= i < |order| ==> rows[i] == accounts[order[i]]
  {
    seq(|order|, i requires 0 <= i < |order| => accounts[order[i]])
  }

  /** The balances map the query's loop fills: each listed account's own balance. */
  function BalanceMap(splits: seq<SplitRow>, rows: seq<AccountRow>): (m: map<Id, Dec>)
    ensures forall id :: id in m <==> exists i :: 0 <= i < |rows| && rows[i].id == id
    ensures forall id :: id in m ==> m[id] == AccountService.Balance(splits, id) && m[id].scale >= 0 && IntScale(m[id].scale)
  {
    if rows == [] then map[]
    else
      var last := rows[|rows| - 1];
      BalanceMap(splits, rows[..|rows| - 1])[last.id := AccountService.Balance(splits, last.id)]
  }

  /** The stored amounts of every account in a subtree, in ten-thousandths. */
  ghost function Units(n: TreeNode, splits: seq<SplitRow>): int
    decreases n, 1
  {
    AccountSum(splits, n.account.id) + UnitsAll(n.children, splits)
  }

  ghost function UnitsAll(ns: seq<TreeNode>, splits: seq<SplitRow>): int
    decreases ns, 0
  {
    if ns == [] then 0 else UnitsAll(ns[..|ns| - 1], splits) + Units(ns[|ns| - 1], splits)
  }

  /** Every listed account's own balance is the sum of the amounts posted to it. */
  ghost predicate OwnUnits(rows: seq<AccountRow>, balances: map<Id, Dec>, splits: seq<SplitRow>) {
    forall a :: a in rows ==> Value(Own(balances, a.id)) == AccountSum(splits, a.id) as real / 10000.0
  }

  /** The balances the query computes are the accounts' posted sums. */
  lemma BalanceOwnUnits(rows: seq<AccountRow>, splits: seq<SplitRow>)
    ensures OwnUnits(rows, BalanceMap(splits, rows), splits)
  {
    var m := BalanceMap(splits, rows);
    forall a | a in rows
      ensures Value(Own(m, a.id)) == AccountSum(splits, a.id) as real / 10000.0
    {
      var i :| 0 <= i < |rows| && rows[i] == a;
      assert a.id in m;
    }
  }

  /**
   * With balances that are the accounts' posted sums, every node of a
   * built tree shows the sum of the amounts posted to its account and to
   * every account below it.
   */
  lemma BuiltShowsUnits(n: TreeNode, rows: seq<AccountRow>, balances: map<Id, Dec>, splits: seq<SplitRow>)
    requires Built(n, rows, balances) && n.account in rows && OwnUnits(rows, balances, splits)
    ensures Total(n, balances) == Units(n, splits) as real / 10000.0
    decreases n, 1
  {
    var kids := WithParent(rows, Some(n.account.id));
    forall i | 0 <= i < |n.children|
      ensures Built(n.children[i], rows, balances) && n.children[i].account in rows
    {
      assert n.children[i].account == kids[i];
    }
    BuiltAllShowUnits(n.children, rows, balances, splits);
  }

  lemma BuiltAllShowUnits(ns: seq<TreeNode>, rows: seq<AccountRow>, balances: map<Id, Dec>, splits: seq<SplitRow>)
    requires forall i :: 0 <= i < |ns| ==> Built(ns[i], rows, balances) && ns[i].account in rows
    requires OwnUnits(rows, balances, splits)
    ensures TotalAll(ns, balances) == UnitsAll(ns, splits) as real / 10000.0
    decreases ns, 0
  {
    if ns != [] {
      BuiltAllShowUnits(ns[..|ns| - 1], rows, balances, splits);
      BuiltShowsUnits(ns[|ns| - 1], rows, balances, splits);
    }
  }

  /**
   * `getAccountTree`: the user's root accounts, in row order, each with
   * its subtree; every balance is the subtree's total.
   */
  method GetAccountTree(db: Database, userId: Id, order: seq<Id>) returns (forest: seq<TreeNode>)
    requires db.Valid()
    requires forall i :: 0 <= i < |order| ==> order[i] in db.accounts && db.accounts[order[i]].owner == userId
    requires forall id :: id in db.accounts && db.accounts[id].owner == userId ==> id in order
    ensures var rows := RowsOf(db.accounts, order);
      var roots := WithParent(rows, None);
      |forest| == |roots|
      && forall i :: 0 <= i < |roots| ==>
           forest[i].account == roots[i] && Built(forest[i], rows, BalanceMap(db.splits, rows))
    ensures forall i :: 0 <= i < |forest| ==>
      ParseDecimal(forest[i].balance).Some?
      && Value(ParseDecimal(forest[i].balance).value) == Units(forest[i], db.splits) as real / 10000.0
  {
    var rows := RowsOf(db.accounts, order);
    ghost var links := LinksOf(db.accounts);
    var balances := FillBalances(db.splits, rows);
    RowsOfLinked(db.accounts, order);
    var roots := WithParent(rows, None);
    forest := seq(|roots|, i requires 0 <= i < |roots| => BuildTreeNode(roots[i], rows, balances, links));
    BalanceOwnUnits(rows, db.splits);
    forall i | 0 <= i < |forest|
      ensures ParseDecimal(forest[i].balance).Some?
      && Value(ParseDecimal(forest[i].balance).value) == Units(forest[i], db.splits) as real / 10000.0
    {
      BuiltShowsUnits(forest[i], rows, balances, db.splits);
    }
  }

  /** The query's rows carry the links of the forest they come from. */
  lemma RowsOfLinked(accounts: map<Id, AccountRow>, order: seq<Id>)
    requires AccountsValid(accounts)
    requires forall i :: 0 <= i < |order| ==> order[i] in accounts
    ensures RowsLinked(RowsOf(accounts, order), LinksOf(accounts))
  {
  }

  /** The loop of `getAccountTree` that computes each account's own balance. */
  method FillBalances(splits: seq<SplitRow>, rows: seq<AccountRow>) returns (balances: map<Id, Dec>)
    ensures balances == BalanceMap(splits, rows)
  {
    balances := map[];
    for i := 0 to |rows|
      invariant balances == BalanceMap(splits, rows[..i])
    {
      assert rows[..i + 1][..i] == rows[..i];
      balances := balances[rows[i].id := AccountService.Balance(splits, rows[i].id)];
    }
    assert rows[..|rows|] == rows;
  }
}
