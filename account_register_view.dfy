/**
 * The register component's own logic: the new-transaction row being
 * edited (its fields, which cell has focus, the Tab/Shift-Tab cell order,
 * the deposit/withdrawal exclusivity and what a save sends), the list of
 * transfer accounts offered in the dropdown, and the reconcile symbol
 * shown for a status string.
 *
 * `getTodayDate()` reads the clock and is a parameter (`today`); the
 * view-model call a save makes is returned as the request it would send.
 */
module AccountRegisterView {
  import opened Wrappers
  import opened Text
  import opened ClientModels
  import Decimal
  import Domain

  // ------------------------------------------------------------ new row

  datatype NewTransactionState = NewTransactionState(
    date: string,
    num: string,
    description: string,
    transferAccountId: string,
    transferAccountName: string,
    deposit: string,
    withdrawal: string)

  /** The reset row: only the date is filled in, with today's date. */
  function Fresh(today: string): (s: NewTransactionState)
    ensures s.date == today
    ensures s.num == s.description == s.transferAccountId == s.transferAccountName == s.deposit == s.withdrawal == ""
  {
    NewTransactionState(today, "", "", "", "", "", "")
  }

  /** `isValid`: the row can be saved. */
  predicate IsValid(s: NewTransactionState) {
    !IsBlank(s.date) && !IsBlank(s.description) && !IsBlank(s.transferAccountId) &&
    (!IsBlank(s.deposit) || !IsBlank(s.withdrawal))
  }

  /** A reset row is never valid: it has no description. */
  lemma FreshInvalid(today: string)
    ensures !IsValid(Fresh(today))
  {
    assert IsBlank(Fresh(today).description);
  }

  /** At most one of the two amount cells holds text. */
  predicate OneAmount(s: NewTransactionState) {
    s.deposit == "" || s.withdrawal == ""
  }

  /** The amount sent: the deposit when it is filled in, else the withdrawal with a minus sign. */
  function SignedAmount(s: NewTransactionState): (amount: string)
    ensures !IsBlank(s.deposit) ==> amount == s.deposit
    ensures IsBlank(s.deposit) ==> amount == "-" + s.withdrawal
  {
    if !IsBlank(s.deposit) then s.deposit else "-" + s.withdrawal
  }

  /**
   * A withdrawal written as an unsigned number is sent as its negation:
   * the amount parses to the negated withdrawal exactly when the
   * withdrawal itself parses.
   */
  lemma WithdrawalNegated(s: NewTransactionState)
    requires IsBlank(s.deposit)
    requires |s.withdrawal| >= 1 && IsAsciiDigit(s.withdrawal[0])
    ensures Decimal.ParseDecimal(SignedAmount(s)).Some? <==> Decimal.ParseDecimal(s.withdrawal).Some?
    ensures Decimal.ParseDecimal(s.withdrawal).Some? ==>
      Decimal.ParseDecimal(SignedAmount(s)) == Some(Decimal.Neg(Decimal.ParseDecimal(s.withdrawal).value))
  {
    Decimal.ParseUnsigned(s.withdrawal);
    Decimal.ParseNegative(s.withdrawal);
  }

  /** The arguments a save hands to the view model's `createSimpleTransaction`. */
  datatype SimpleTransfer = SimpleTransfer(
    date: string,
    description: string,
    amount: string,
    transferAccountId: string,
    transferAccountCurrency: string,
    num: Option<string>)

  /** The request a valid row turns into; the transfer currency is always "USD". */
  function Request(s: NewTransactionState): (t: SimpleTransfer)
    requires IsValid(s)
    ensures t.date == s.date && t.description == s.description && t.transferAccountId == s.transferAccountId
    ensures t.amount == SignedAmount(s)
    ensures t.transferAccountCurrency == "USD"
    ensures t.num.Some? <==> !IsBlank(s.num)
    ensures t.num.Some? ==> t.num.value == s.num
  {
    SimpleTransfer(s.date, s.description, SignedAmount(s), s.transferAccountId, "USD",
      if IsBlank(s.num) then None else Some(s.num))
  }

  // ------------------------------------------------------------ cell order

  datatype EditingCell = DATE | NUM | DESCRIPTION | TRANSFER | DEPOSIT | WITHDRAWAL

  /** The column a cell sits in, left to right. */
  function Column(c: EditingCell): (k: nat)
    ensures k < 6
  {
    match c
    case DATE => 0
    case NUM => 1
    case DESCRIPTION => 2
    case TRANSFER => 3
    case DEPOSIT => 4
    case WITHDRAWAL => 5
  }

  /** The Tab table; leaving the last cell ends editing. */
  function Next(c: Option<EditingCell>): Option<EditingCell> {
    match c
    case None => None
    case Some(DATE) => Some(NUM)
    case Some(NUM) => Some(DESCRIPTION)
    case Some(DESCRIPTION) => Some(TRANSFER)
    case Some(TRANSFER) => Some(DEPOSIT)
    case Some(DEPOSIT) => Some(WITHDRAWAL)
    case Some(WITHDRAWAL) => None
  }

  /** The Shift-Tab table; leaving the first cell ends editing. */
  function Previous(c: Option<EditingCell>): Option<EditingCell> {
    match c
    case None => None
    case Some(DATE) => None
    case Some(NUM) => Some(DATE)
    case Some(DESCRIPTION) => Some(NUM)
    case Some(TRANSFER) => Some(DESCRIPTION)
    case Some(DEPOSIT) => Some(TRANSFER)
    case Some(WITHDRAWAL) => Some(DEPOSIT)
  }

  /** Tab moves one column to the right, and ends editing only from the last column. */
  lemma NextMovesRight(c: EditingCell)
    ensures Next(Some(c)).Some? <==> c != WITHDRAWAL
    ensures Next(Some(c)).Some? ==> Column(Next(Some(c)).value) == Column(c) + 1
  {
  }

  /** Shift-Tab moves one column to the left, and ends editing only from the first column. */
  lemma PreviousMovesLeft(c: EditingCell)
    ensures Previous(Some(c)).Some? <==> c != DATE
    ensures Previous(Some(c)).Some? ==> Column(Previous(Some(c)).value) + 1 == Column(c)
  {
  }

  /** Shift-Tab undoes Tab everywhere but the last cell, and Tab undoes Shift-Tab everywhere but the first. */
  lemma TabRoundTrip(c: EditingCell)
    ensures c != WITHDRAWAL ==> Previous(Next(Some(c))) == Some(c)
    ensures c != DATE ==> Next(Previous(Some(c))) == Some(c)
  {
  }

  /**
   * The row being edited: its fields, the focused cell and whether the
   * row is selected.
   */
  class NewRowEditor {
    var newTx: NewTransactionState
    var editingCell: Option<EditingCell>
    var isEditingNewRow: bool

    /** The reset done when the register opens an account. */
    constructor (today: string)
      ensures newTx == Fresh(today) && editingCell == None && !isEditingNewRow
    {
      newTx := Fresh(today);
      editingCell := None;
      isEditingNewRow := false;
    }

    /**
     * `saveNewTransaction`: nothing happens to an invalid row; a valid
     * one is sent and the row is reset.
     */
    method SaveNewTransaction(today: string) returns (sent: Option<SimpleTransfer>)
      modifies this
      ensures !IsValid(old(newTx)) ==>
        sent == None && newTx == old(newTx) && editingCell == old(editingCell) && isEditingNewRow == old(isEditingNewRow)
      ensures IsValid(old(newTx)) ==>
        sent == Some(Request(old(newTx))) && newTx == Fresh(today) && editingCell == None && !isEditingNewRow
    {
      if !IsValid(newTx) {
        return None;
      }
      var amount := if !IsBlank(newTx.deposit) then newTx.deposit else "-" + newTx.withdrawal;
      var num := if IsBlank(newTx.num) then None else Some(newTx.num);
      sent := Some(SimpleTransfer(newTx.date, newTx.description, amount, newTx.transferAccountId, "USD", num));
      newTx := Fresh(today);
      editingCell := None;
      isEditingNewRow := false;
    }

    /** `moveToNextCell`: Tab, saving a valid row when it leaves the last cell. */
    method MoveToNextCell(today: string) returns (sent: Option<SimpleTransfer>)
      modifies this
      ensures editingCell == Next(old(editingCell))
      ensures sent.Some? <==> old(editingCell) == Some(WITHDRAWAL) && IsValid(old(newTx))
      ensures sent.Some? ==> sent.value == Request(old(newTx)) && newTx == Fresh(today) && !isEditingNewRow
      ensures sent.None? ==> newTx == old(newTx) && isEditingNewRow == old(isEditingNewRow)
    {
      sent := None;
      match editingCell
      case Some(WITHDRAWAL) =>
        if IsValid(newTx) {
          sent := SaveNewTransaction(today);
        }
        editingCell := None;
      case _ =>
        editingCell := Next(editingCell);
    }

    /** `moveToPreviousCell`: Shift-Tab. */
    method MoveToPreviousCell()
      modifies this
      ensures editingCell == Previous(old(editingCell))
      ensures newTx == old(newTx) && isEditingNewRow == old(isEditingNewRow)
    {
      editingCell := Previous(editingCell);
    }

    /** `cancelEdit`: Escape drops the row's contents and focus. */
    method CancelEdit(today: string)
      modifies this
      ensures newTx == Fresh(today) && editingCell == None && !isEditingNewRow
    {
      editingCell := None;
      isEditingNewRow := false;
      newTx := Fresh(today);
    }

    /** A click on a cell of the row selects the row and focuses the cell. */
    method OnCellClick(cell: EditingCell)
      modifies this
      ensures isEditingNewRow && editingCell == Some(cell) && newTx == old(newTx)
    {
      isEditingNewRow := true;
      editingCell := Some(cell);
    }

    method OnDateChange(value: string)
      modifies this
      ensures newTx == old(newTx).(date := value)
      ensures editingCell == old(editingCell) && isEditingNewRow == old(isEditingNewRow)
    {
      newTx := newTx.(date := value);
    }

    method OnNumChange(value: string)
      modifies this
      ensures newTx == old(newTx).(num := value)
      ensures editingCell == old(editingCell) && isEditingNewRow == old(isEditingNewRow)
    {
      newTx := newTx.(num := value);
    }

    method OnDescriptionChange(value: string)
      modifies this
      ensures newTx == old(newTx).(description := value)
      ensures editingCell == old(editingCell) && isEditingNewRow == old(isEditingNewRow)
    {
      newTx := newTx.(description := value);
    }

    method OnTransferChange(id: string, name: string)
      modifies this
      ensures newTx == old(newTx).(transferAccountId := id, transferAccountName := name)
      ensures editingCell == old(editingCell) && isEditingNewRow == old(isEditingNewRow)
    {
      newTx := newTx.(transferAccountId := id, transferAccountName := name);
    }

    /** Typing a deposit clears the withdrawal. */
    method OnDepositChange(value: string)
      modifies this
      ensures newTx == old(newTx).(deposit := value, withdrawal := "")
      ensures OneAmount(newTx)
      ensures editingCell == old(editingCell) && isEditingNewRow == old(isEditingNewRow)
    {
      newTx := newTx.(deposit := value, withdrawal := "");
    }

    /** Typing a withdrawal clears the deposit. */
    method OnWithdrawalChange(value: string)
      modifies this
      ensures newTx == old(newTx).(withdrawal := value, deposit := "")
      ensures OneAmount(newTx)
      ensures editingCell == old(editingCell) && isEditingNewRow == old(isEditingNewRow)
    {
      newTx := newTx.(withdrawal := value, deposit := "");
    }
  }

  /** Every edit keeps at most one amount cell filled in, starting from the reset row. */
  lemma EditsKeepOneAmount(s: NewTransactionState, today: string, v: string, id: string, name: string)
    requires OneAmount(s)
    ensures OneAmount(Fresh(today))
    ensures OneAmount(s.(date := v)) && OneAmount(s.(num := v)) && OneAmount(s.(description := v))
    ensures OneAmount(s.(transferAccountId := id, transferAccountName := name))
    ensures OneAmount(s.(deposit := v, withdrawal := "")) && OneAmount(s.(withdrawal := v, deposit := ""))
  {
  }

  // ------------------------------------------------------------ dropdown

  /** An (id, full name) choice of the transfer-account dropdown. */
  type Choice = (string, string)

  /** What `traverse` adds for one node and its subtree: itself unless a placeholder, then its children's. */
  function Visit(n: TreeNode): seq<Choice>
    decreases n, 1
  {
    (if !n.account.placeholder then [(n.account.id, n.account.fullName)] else [])
      + Preorder(n.children)
  }

  /** The pre-order walk over a forest. */
  function Preorder(nodes: seq<TreeNode>): seq<Choice>
    decreases nodes, 0
  {
    if nodes == [] then []
    else Preorder(nodes[..|nodes| - 1]) + Visit(nodes[|nodes| - 1])
  }

  /** The ids of the non-placeholder accounts of a forest. */
  function Postable(nodes: seq<TreeNode>): set<string>
    decreases nodes
  {
    if nodes == [] then {}
    else
      var last := nodes[|nodes| - 1];
      Postable(nodes[..|nodes| - 1]) + (if !last.account.placeholder then {last.account.id} else {})
        + Postable(last.children)
  }

  /** The walk offers exactly the non-placeholder accounts. */
  lemma PreorderPostable(nodes: seq<TreeNode>)
    ensures forall c :: c in Preorder(nodes) ==> c.0 in Postable(nodes)
    ensures forall id :: id in Postable(nodes) ==> exists c :: c in Preorder(nodes) && c.0 == id
  {
    PreorderOffersPostable(nodes);
    PostableOffered(nodes);
  }

  /** The preorder walk splits into the walk of all but the last root, that root's own choice, and its subtree's walk. */
  lemma PreorderSnoc(nodes: seq<TreeNode>)
    requires nodes != []
    ensures var last := nodes[|nodes| - 1];
      Preorder(nodes) == Preorder(nodes[..|nodes| - 1])
        + (if !last.account.placeholder then [(last.account.id, last.account.fullName)] else [])
        + Preorder(last.children)
  {
  }

  lemma {:induction false} PreorderOffersPostable(nodes: seq<TreeNode>)
    ensures forall c :: c in Preorder(nodes) ==> c.0 in Postable(nodes)
    decreases nodes
  {
    if nodes != [] {
      var init := nodes[..|nodes| - 1];
      var last := nodes[|nodes| - 1];
      PreorderOffersPostable(init);
      PreorderOffersPostable(last.children);
      PreorderSnoc(nodes);
    }
  }

  lemma {:induction false} PostableOffered(nodes: seq<TreeNode>)
    ensures forall id :: id in Postable(nodes) ==> exists c :: c in Preorder(nodes) && c.0 == id
    decreases nodes
  {
    if nodes != [] {
      var init := nodes[..|nodes| - 1];
      var last := nodes[|nodes| - 1];
      PostableOffered(init);
      PostableOffered(last.children);
      var own := if !last.account.placeholder then [(last.account.id, last.account.fullName)] else [];
      PreorderSnoc(nodes);
      forall id | id in Postable(nodes)
        ensures exists c :: c in Preorder(nodes) && c.0 == id
      {
        if id in Postable(init) {
          var c :| c in Preorder(init) && c.0 == id;
          assert c in Preorder(nodes);
        } else if id in Postable(last.children) {
          var c :| c in Preorder(last.children) && c.0 == id;
          assert c in Preorder(nodes);
        } else {
          assert own[0] in Preorder(nodes);
        }
      }
    }
  }

  /** The nested `traverse`: appends a node's choices, then its children's, depth first. */
  method Traverse(node: TreeNode, result: seq<Choice>) returns (out: seq<Choice>)
    ensures out == result + Visit(node)
    decreases node
  {
    out := result;
    if !node.account.placeholder {
      out := out + [(node.account.id, node.account.fullName)];
    }
    var children := node.children;
    for i := 0 to |children|
      invariant out == result + (if !node.account.placeholder then [(node.account.id, node.account.fullName)] else [])
        + Preorder(children[..i])
    {
      assert children[..i + 1][..i] == children[..i];
      out := Traverse(children[i], out);
    }
    assert children[..|children|] == children;
  }

  /** `a.fullName.compareTo(b.fullName) <= 0`. */
  predicate NameLe(a: Choice, b: Choice) {
    StringLe(a.1, b.1)
  }

  predicate ByName(s: seq<Choice>) {
    forall i, j :: 0 <= i < j < |s| ==> NameLe(s[i], s[j])
  }

  /** A choice no later by name than any of a sorted list can go in front of it. */
  lemma ConsByName(x: Choice, s: seq<Choice>)
    requires ByName(s)
    requires forall j :: 0 <= j < |s| ==> NameLe(x, s[j])
    ensures ByName([x] + s)
  {
    forall i, j | 0 <= i < j < |[x] + s|
      ensures NameLe(([x] + s)[i], ([x] + s)[j])
    {
      assert ([x] + s)[j] == s[j - 1];
      if i > 0 {
        assert ([x] + s)[i] == s[i - 1];
      }
    }
  }

  /** A choice no later by name than the head of a sorted list is no later than any of it. */
  lemma BelowHead(x: Choice, s: seq<Choice>)
    requires ByName(s) && s != [] && NameLe(x, s[0])
    ensures forall j :: 0 <= j < |s| ==> NameLe(x, s[j])
  {
    forall j | 0 < j < |s|
      ensures NameLe(x, s[j])
    {
      UnitsLeTransitive(Utf16Units(x.1), Utf16Units(s[0].1), Utf16Units(s[j].1));
    }
  }

  /** Puts `x` in front of the first choice whose name is not below its own. */
  function InsertByName(x: Choice, s: seq<Choice>): (r: seq<Choice>)
    requires ByName(s)
    ensures |r| == |s| + 1
    ensures multiset(r) == multiset(s) + multiset{x}
    ensures forall i :: 0 <= i < |r| ==> r[i] == x || r[i] in s
    ensures ByName(r)
  {
    if s == [] then [x]
    else if NameLe(x, s[0]) then
      BelowHead(x, s);
      ConsByName(x, s);
      [x] + s
    else
      UnitsLeTotal(Utf16Units(x.1), Utf16Units(s[0].1));
      assert s == [s[0]] + s[1..];
      assert ByName(s[1..]) by {
        forall i, j | 0 <= i < j < |s[1..]|
          ensures NameLe(s[1..][i], s[1..][j])
        {
          assert s[1..][i] == s[i + 1] && s[1..][j] == s[j + 1];
        }
      }
      var rest := InsertByName(x, s[1..]);
      assert forall i :: 0 <= i < |rest| ==> NameLe(s[0], rest[i]) by {
        forall i | 0 <= i < |rest|
          ensures NameLe(s[0], rest[i])
        {
          if rest[i] != x {
            var k :| 0 <= k < |s[1..]| && s[1..][k] == rest[i];
            assert s[k + 1] == rest[i];
          }
        }
      }
      ConsByName(s[0], rest);
      [s[0]] + rest
  }

  /** `sortedBy { it.second }`: ascending by full name. */
  function SortByName(s: seq<Choice>): (r: seq<Choice>)
    ensures |r| == |s|
    ensures multiset(r) == multiset(s)
    ensures ByName(r)
  {
    if s == [] then []
    else
      assert s == [s[0]] + s[1..];
      InsertByName(s[0], SortByName(s[1..]))
  }

  /** `flattenAccountsForDropdown`: the pre-order walk, sorted by full name. */
  method FlattenAccountsForDropdown(nodes: seq<TreeNode>) returns (choices: seq<Choice>)
    ensures choices == SortByName(Preorder(nodes))
  {
    var result := [];
    for i := 0 to |nodes|
      invariant result == Preorder(nodes[..i])
    {
      assert nodes[..i + 1][..i] == nodes[..i];
      result := Traverse(nodes[i], result);
    }
    assert nodes[..|nodes|] == nodes;
    choices := SortByName(result);
  }

  /** `allAccounts`: the dropdown without the account whose register is open. */
  function Excluding(choices: seq<Choice>, accountId: string): (r: seq<Choice>)
    ensures forall c :: c in r <==> c in choices && c.0 != accountId
    ensures ByName(choices) ==> ByName(r)
  {
    if choices == [] then []
    else
      var rest := Excluding(choices[1..], accountId);
      assert ByName(choices) ==> ByName(choices[1..]) by {
        if ByName(choices) {
          forall i, j | 0 <= i < j < |choices[1..]|
            ensures NameLe(choices[1..][i], choices[1..][j])
          {
            assert choices[1..][i] == choices[i + 1] && choices[1..][j] == choices[j + 1];
          }
        }
      }
      if choices[0].0 == accountId then rest
      else
        assert forall c :: c in rest ==> c in choices[1..];
        [choices[0]] + rest
  }

  /** What `Excluding` keeps of one choice. */
  function Kept(x: Choice, accountId: string): seq<Choice> {
    if x.0 == accountId then [] else [x]
  }

  lemma ExcludingCons(x: Choice, xs: seq<Choice>, accountId: string)
    ensures Excluding([x] + xs, accountId) == Kept(x, accountId) + Excluding(xs, accountId)
  {
    assert ([x] + xs)[0] == x && ([x] + xs)[1..] == xs;
  }

  /** Dropping the open account works choice by choice: the choices kept stay in their order. */
  lemma {:induction false} ExcludingAppend(a: seq<Choice>, b: seq<Choice>, accountId: string)
    ensures Excluding(a + b, accountId) == Excluding(a, accountId) + Excluding(b, accountId)
    decreases |a|
  {
    if a == [] {
      assert a + b == b;
    } else {
      var x, xs := a[0], a[1..];
      assert a == [x] + xs;
      assert a + b == [x] + (xs + b);
      ExcludingCons(x, xs, accountId);
      ExcludingCons(x, xs + b, accountId);
      ExcludingAppend(xs, b, accountId);
      AppendAssoc(Kept(x, accountId), Excluding(xs, accountId), Excluding(b, accountId));
    }
  }

  lemma AppendAssoc<T>(p: seq<T>, q: seq<T>, r: seq<T>)
    ensures p + (q + r) == (p + q) + r
  {
  }

  /**
   * The transfer accounts offered are sorted by full name, and are
   * exactly the non-placeholder accounts other than the open one.
   */
  lemma DropdownOffers(nodes: seq<TreeNode>, accountId: string)
    ensures ByName(Excluding(SortByName(Preorder(nodes)), accountId))
    ensures forall c :: c in Excluding(SortByName(Preorder(nodes)), accountId) ==>
      c.0 in Postable(nodes) && c.0 != accountId
    ensures forall id :: id in Postable(nodes) && id != accountId ==>
      exists c :: c in Excluding(SortByName(Preorder(nodes)), accountId) && c.0 == id
  {
    var walk := Preorder(nodes);
    var sorted := SortByName(walk);
    var offered := Excluding(sorted, accountId);
    PreorderPostable(nodes);
    forall c | c in offered
      ensures c.0 in Postable(nodes) && c.0 != accountId
    {
      assert c in multiset(sorted);
      assert c in walk;
    }
    forall id | id in Postable(nodes) && id != accountId
      ensures exists c :: c in offered && c.0 == id
    {
      var c :| c in walk && c.0 == id;
      assert c in multiset(walk);
      assert c in sorted;
      assert c in offered;
    }
  }

  // ------------------------------------------------------------ reconcile

  /** The symbol shown for a status as the server spells it; anything unknown shows as new. */
  function ReconcileSymbol(status: string): (sym: string)
    ensures sym in {"n", "c", "y"}
  {
    if status == "NEW" then "n"
    else if status == "CLEARED" then "c"
    else if status == "RECONCILED" then "y"
    else "n"
  }

  /** For every status the server sends, the register shows the symbol of the shared enum. */
  lemma ReconcileSymbolAgrees(st: Domain.ReconcileStatus)
    ensures ReconcileSymbol(Domain.StatusName(st)) == Domain.Symbol(st)
  {
  }

  /** Strings that name no status show as new. */
  lemma UnknownShowsNew(status: string)
    requires status !in {"NEW", "CLEARED", "RECONCILED"}
    ensures ReconcileSymbol(status) == "n"
  {
  }
}
