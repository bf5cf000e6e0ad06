/**
 * The client's view of the chart of accounts, as the server's tree
 * endpoint sends it: each node carries the account, its balance text and
 * its children. Only the account fields the client logic reads are kept.
 */
module ClientModels {
  datatype Account = Account(id: string, fullName: string, placeholder: bool)

  datatype TreeNode = TreeNode(account: Account, balance: string, children: seq<TreeNode>)

  /** One row of a register as the server sends it. */
  datatype RegisterEntryInfo = RegisterEntryInfo(
    transactionId: string,
    date: string,
    description: string,
    amount: string,
    balance: string,
    reconcileStatus: string,
    isSplit: bool,
    otherAccounts: seq<string>)

  /** The register of one account as the server sends it. */
  datatype RegisterResponse = RegisterResponse(
    accountId: string,
    accountName: string,
    accountType: string,
    normalBalance: string,
    entries: seq<RegisterEntryInfo>,
    openingBalance: string,
    closingBalance: string)

  datatype SplitInfo = SplitInfo(accountId: string, accountName: string, amount: string, currency: string, reconcileStatus: string)

  /** A transaction with its splits as the server sends it. */
  datatype TransactionInfo = TransactionInfo(id: string, description: string, splits: seq<SplitInfo>)

  /** The number of nodes in a forest. */
  function Size(nodes: seq<TreeNode>): (n: nat)
    ensures n >= |nodes|
    decreases nodes
  {
    if nodes == [] then 0
    else Size(nodes[..|nodes| - 1]) + 1 + Size(nodes[|nodes| - 1].children)
  }

  /** The ids of every node in a forest, at any depth. */
  function AllIds(nodes: seq<TreeNode>): (ids: set<string>)
    ensures forall n :: n in nodes ==> n.account.id in ids
    decreases nodes
  {
    if nodes == [] then {}
    else
      var last := nodes[|nodes| - 1];
      assert forall n :: n in nodes ==> n in nodes[..|nodes| - 1] || n == last;
      AllIds(nodes[..|nodes| - 1]) + {last.account.id} + AllIds(last.children)
  }
}
