/**
 * The tree view of the accounts screen: the forest is flattened into the
 * rows shown on screen, a node's children following it (one level deeper)
 * only when the node is expanded and has children.
 */
module AccountTreeView {
  import opened ClientModels

  datatype Flattened = Flattened(node: TreeNode, depth: nat, hasChildren: bool)

  /** The rows a single node contributes: itself, then its visible subtree. */
  function Rows(n: TreeNode, expanded: set<string>, depth: nat): seq<Flattened>
    decreases n, 1
  {
    [Flattened(n, depth, n.children != [])]
      + (if n.account.id in expanded && n.children != [] then Flatten(n.children, expanded, depth + 1) else [])
  }

  /** The rows of a forest: the rows of each root, in order. */
  function Flatten(nodes: seq<TreeNode>, expanded: set<string>, depth: nat): seq<Flattened>
    decreases nodes, 0
  {
    if nodes == [] then []
    else Flatten(nodes[..|nodes| - 1], expanded, depth) + Rows(nodes[|nodes| - 1], expanded, depth)
  }

  /** `flattenTree`: a loop over the roots that recurses into expanded ones. */
  method FlattenTree(nodes: seq<TreeNode>, expanded: set<string>, depth: nat) returns (result: seq<Flattened>)
    ensures result == Flatten(nodes, expanded, depth)
    decreases nodes
  {
    result := [];
    for i := 0 to |nodes|
      invariant result == Flatten(nodes[..i], expanded, depth)
    {
      var node := nodes[i];
      assert nodes[..i + 1][..i] == nodes[..i];
      result := result + [Flattened(node, depth, node.children != [])];
      if node.account.id in expanded && node.children != [] {
        var nested := FlattenTree(node.children, expanded, depth + 1);
        result := result + nested;
      }
    }
    assert nodes[..|nodes|] == nodes;
  }

  /** Every row is at least as deep as the level it was produced at, and says truly whether its node has children. */
  lemma {:induction false} RowsShape(nodes: seq<TreeNode>, expanded: set<string>, depth: nat)
    ensures forall r :: r in Flatten(nodes, expanded, depth) ==> r.depth >= depth && r.hasChildren == (r.node.children != [])
    decreases nodes
  {
    if nodes != [] {
      var last := nodes[|nodes| - 1];
      RowsShape(nodes[..|nodes| - 1], expanded, depth);
      if last.account.id in expanded && last.children != [] {
        RowsShape(last.children, expanded, depth + 1);
      }
    }
  }

  /** The nodes of the rows at exactly one depth. */
  function AtDepth(rows: seq<Flattened>, depth: nat): (ns: seq<TreeNode>)
    ensures |ns| <= |rows|
  {
    if rows == [] then []
    else AtDepth(rows[..|rows| - 1], depth) + (if rows[|rows| - 1].depth == depth then [rows[|rows| - 1].node] else [])
  }

  lemma {:induction false} AtDepthAppend(a: seq<Flattened>, b: seq<Flattened>, depth: nat)
    ensures AtDepth(a + b, depth) == AtDepth(a, depth) + AtDepth(b, depth)
    decreases |b|
  {
    if b == [] {
      assert a + b == a;
    } else {
      assert (a + b)[..|a + b| - 1] == a + b[..|b| - 1];
      AtDepthAppend(a, b[..|b| - 1], depth);
    }
  }

  lemma {:induction false} AtDepthDeeper(rows: seq<Flattened>, depth: nat)
    requires forall r :: r in rows ==> r.depth > depth
    ensures AtDepth(rows, depth) == []
    decreases |rows|
  {
    if rows != [] {
      AtDepthDeeper(rows[..|rows| - 1], depth);
    }
  }

  /** A node's own rows hold exactly one row at its level: the node itself. */
  lemma RowsAtOwnDepth(n: TreeNode, expanded: set<string>, depth: nat)
    ensures AtDepth(Rows(n, expanded, depth), depth) == [n]
  {
    var head := [Flattened(n, depth, n.children != [])];
    var nested := if n.account.id in expanded && n.children != [] then Flatten(n.children, expanded, depth + 1) else [];
    if n.account.id in expanded && n.children != [] {
      RowsShape(n.children, expanded, depth + 1);
    }
    AtDepthDeeper(nested, depth);
    assert AtDepth(head, depth) == [n] by {
      assert head[..0] == [];
    }
    AtDepthAppend(head, nested, depth);
  }

  /**
   * Expanding and collapsing never hides a root: the rows at the top
   * level are exactly the roots, in their order.
   */
  lemma {:induction false} RootsAlwaysShown(nodes: seq<TreeNode>, expanded: set<string>, depth: nat)
    ensures AtDepth(Flatten(nodes, expanded, depth), depth) == nodes
    decreases nodes
  {
    if nodes != [] {
      var init := nodes[..|nodes| - 1];
      var last := nodes[|nodes| - 1];
      RootsAlwaysShown(init, expanded, depth);
      RowsAtOwnDepth(last, expanded, depth);
      AtDepthAppend(Flatten(init, expanded, depth), Rows(last, expanded, depth), depth);
      assert init + [last] == nodes;
    }
  }

  /** With nothing expanded, exactly the roots are shown, at the top level. */
  lemma {:induction false} CollapsedShowsRoots(nodes: seq<TreeNode>, depth: nat)
    ensures var rows := Flatten(nodes, {}, depth);
      |rows| == |nodes| &&
      forall i :: 0 <= i < |rows| ==> rows[i] == Flattened(nodes[i], depth, nodes[i].children != [])
    decreases nodes
  {
    if nodes != [] {
      CollapsedShowsRoots(nodes[..|nodes| - 1], depth);
    }
  }

  /** At most every node of the forest is shown. */
  lemma {:induction false} ShownAtMostAll(nodes: seq<TreeNode>, expanded: set<string>, depth: nat)
    ensures |Flatten(nodes, expanded, depth)| <= Size(nodes)
    decreases nodes
  {
    if nodes != [] {
      var last := nodes[|nodes| - 1];
      ShownAtMostAll(nodes[..|nodes| - 1], expanded, depth);
      if last.account.id in expanded && last.children != [] {
        ShownAtMostAll(last.children, expanded, depth + 1);
      }
    }
  }

  /** With every id expanded, every node of the forest is shown. */
  lemma {:induction false} ExpandedShowsAll(nodes: seq<TreeNode>, expanded: set<string>, depth: nat)
    requires AllIds(nodes) <= expanded
    ensures |Flatten(nodes, expanded, depth)| == Size(nodes)
    decreases nodes
  {
    if nodes != [] {
      var init := nodes[..|nodes| - 1];
      var last := nodes[|nodes| - 1];
      ExpandedShowsAll(init, expanded, depth);
      if last.children != [] {
        ExpandedShowsAll(last.children, expanded, depth + 1);
      }
    }
  }
}
