/**
 * The accounts screen's view model: the loaded forest, which accounts are
 * expanded, and the loading and error flags. The load runs to completion
 * in one step; the API call's outcome is a parameter.
 */
module AccountsViewModel {
  import opened Wrappers
  import opened ClientModels
  import opened ApiResults
  import AccountTreeView

  /** Toggling one id in the expanded set. */
  function Toggle(expanded: set<string>, id: string): (r: set<string>)
    ensures id in r <==> id !in expanded
    ensures forall x :: x != id ==> (x in r <==> x in expanded)
  {
    if id in expanded then expanded - {id} else expanded + {id}
  }

  /** Toggling the same id twice restores the expanded set. */
  lemma ToggleTwice(expanded: set<string>, id: string)
    ensures Toggle(Toggle(expanded, id), id) == expanded
  {
  }

  /** The ids of the roots of a forest. */
  function RootIds(nodes: seq<TreeNode>): (ids: set<string>)
    ensures forall n :: n in nodes ==> n.account.id in ids
    ensures forall x :: x in ids ==> exists n :: n in nodes && n.account.id == x
    ensures ids <= AllIds(nodes)
  {
    set n | n in nodes :: n.account.id
  }

  lemma AllIdsSnoc(nodes: seq<TreeNode>, node: TreeNode)
    ensures AllIds(nodes + [node]) == AllIds(nodes) + {node.account.id} + AllIds(node.children)
  {
    assert (nodes + [node])[..|nodes|] == nodes;
  }

  /** After `expandAll` every account of the forest is shown. */
  lemma ExpandAllShowsEverything(nodes: seq<TreeNode>)
    ensures |AccountTreeView.Flatten(nodes, AllIds(nodes), 0)| == Size(nodes)
  {
    AccountTreeView.ExpandedShowsAll(nodes, AllIds(nodes), 0);
  }

  /** After `collapseAll` only the roots are shown. */
  lemma CollapseAllShowsRoots(nodes: seq<TreeNode>)
    ensures |AccountTreeView.Flatten(nodes, {}, 0)| == |nodes|
  {
    AccountTreeView.CollapsedShowsRoots(nodes, 0);
  }

  class AccountsViewModel {
    var isLoading: bool
    var accounts: seq<TreeNode>
    var expanded: set<string>
    var error: Option<string>

    constructor ()
      ensures !isLoading && accounts == [] && expanded == {} && error == None
    {
      isLoading := false;
      accounts := [];
      expanded := {};
      error := None;
    }

    /**
     * `loadAccounts`: on success the state is replaced by the new forest,
     * the roots expanded when nothing was expanded before; on failure the
     * forest and the expanded set are kept and the message is shown.
     */
    method LoadAccounts(result: ApiResult<seq<TreeNode>>)
      modifies this
      ensures !isLoading
      ensures result.Success? ==>
        accounts == result.data && error == None &&
        expanded == (if old(expanded) == {} then RootIds(result.data) else old(expanded))
      ensures result.Error? ==>
        accounts == old(accounts) && expanded == old(expanded) && error == Some(result.message)
    {
      isLoading := true;
      error := None;
      match result
      case Success(data) =>
        var keep := expanded;
        isLoading := false;
        accounts := data;
        expanded := if keep == {} then RootIds(data) else keep;
        error := None;
      case Error(message, _) =>
        isLoading := false;
        error := Some(message);
    }

    method ToggleExpanded(accountId: string)
      modifies this
      ensures expanded == Toggle(old(expanded), accountId)
      ensures isLoading == old(isLoading) && accounts == old(accounts) && error == old(error)
    {
      expanded := if accountId in expanded then expanded - {accountId} else expanded + {accountId};
    }

    method ExpandAll()
      modifies this
      ensures expanded == AllIds(accounts)
      ensures isLoading == old(isLoading) && accounts == old(accounts) && error == old(error)
    {
      expanded := CollectAllAccountIds(accounts);
    }

    method CollapseAll()
      modifies this
      ensures expanded == {}
      ensures isLoading == old(isLoading) && accounts == old(accounts) && error == old(error)
    {
      expanded := {};
    }

    /** `collectAllAccountIds`: every id of the forest, at any depth. */
    method CollectAllAccountIds(nodes: seq<TreeNode>) returns (ids: set<string>)
      ensures ids == AllIds(nodes)
    {
      ids := {};
      for i := 0 to |nodes|
        invariant ids == AllIds(nodes[..i])
      {
        ids := Collect(nodes[i], ids);
        AllIdsSnoc(nodes[..i], nodes[i]);
        assert nodes[..i + 1] == nodes[..i] + [nodes[i]];
      }
      assert nodes[..|nodes|] == nodes;
    }

    /** The nested `collect`: adds a node's id, then its children's, depth first. */
    method Collect(node: TreeNode, ids: set<string>) returns (out: set<string>)
      ensures out == ids + {node.account.id} + AllIds(node.children)
      decreases node
    {
      out := ids + {node.account.id};
      var children := node.children;
      for i := 0 to |children|
        invariant out == ids + {node.account.id} + AllIds(children[..i])
      {
        out := Collect(children[i], out);
        AllIdsSnoc(children[..i], children[i]);
        assert children[..i + 1] == children[..i] + [children[i]];
      }
      assert children[..|children|] == children;
    }

    method ClearError()
      modifies this
      ensures error == None
      ensures isLoading == old(isLoading) && accounts == old(accounts) && expanded == old(expanded)
    {
      error := None;
    }
  }
}
