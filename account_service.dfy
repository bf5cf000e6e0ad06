/**
 * The account service: creating, renaming, moving and deleting the
 * accounts of one user, account balances, the account tree with subtree
 * totals, and the default chart of accounts every new user starts with.
 *
 * Every operation runs in one database transaction: when it fails, the
 * database is left as it was.
 */
module AccountService {
  import opened Wrappers
  import opened Text
  import opened Uuid
  import opened Tables
  import opened Errors
  import opened Links
  import opened Store
  import Decimal

  datatype CreateAccountRequest = CreateAccountRequest(
    parentId: Option<string>,
    name: string,
    accountType: string,
    currency: string,
    description: Option<string>,
    placeholder: bool)

  datatype UpdateAccountRequest = UpdateAccountRequest(
    name: Option<string>,
    description: Option<string>,
    parentId: Option<string>)

  // ------------------------------------------------------------- helpers

  /** An optional id parameter read with `UUID.fromString`; `None` when absent or malformed. */
  function ParsedId(s: Option<string>): Option<Id> {
    if s.Some? then ParseUuid(s.value) else None
  }

  /** The lookup `id = ? and user_id = ?` finds a row. */
  predicate Owned(accounts: map<Id, AccountRow>, id: Id, owner: Id) {
    id in accounts && accounts[id].owner == owner
  }

  /** The rows the duplicate-name query finds: same user, same parent (or both roots), same name. */
  function Namesakes(accounts: map<Id, AccountRow>, owner: Id, parent: Option<Id>, name: string): set<Id> {
    set y | y in accounts && accounts[y].owner == owner && accounts[y].parent == parent && accounts[y].name == name
  }

  lemma NamesakesAtMostOne(accounts: map<Id, AccountRow>, owner: Id, parent: Id, name: string)
    requires SiblingIndex(accounts)
    ensures |Namesakes(accounts, owner, Some(parent), name)| <= 1
  {
    var s := Namesakes(accounts, owner, Some(parent), name);
    if |s| > 1 {
      var x :| x in s;
      assert |s - {x}| >= 1;
      var y :| y in s - {x};
      assert SameSlot(accounts[x], accounts[y]);
    }
  }

  // ---------------------------------------------------------- validation

  /** The first rule the fields of a new account break, in the order they are checked. */
  function ValidateCreateAccount(req: CreateAccountRequest): (r: Option<Failure>)
    ensures r.None? <==>
      !IsBlank(req.name) && !Contains(req.name, ':')
      && ReadAccountType(req.accountType).Some? && ReadCurrency(req.currency).Some?
    ensures r.Some? ==> Kind(r.value) == BadRequest
    ensures IsBlank(req.name) ==> r == Some(BlankAccountName)
    ensures r == Some(InvalidCurrency(req.currency)) ==>
      !IsBlank(req.name) && !Contains(req.name, ':') && ReadAccountType(req.accountType).Some?
  {
    if IsBlank(req.name) then Some(BlankAccountName)
    else if Contains(req.name, ':') then Some(NameContainsColon)
    else if ReadAccountType(req.accountType).None? then Some(InvalidAccountType(req.accountType))
    else if ReadCurrency(req.currency).None? then Some(InvalidCurrency(req.currency))
    else None
  }

  /** An account's full name: its parent's full name, a colon and its name; the bare name without a parent. */
  function BuildFullName(parent: Option<AccountRow>, name: string): (s: string)
    ensures parent.None? ==> s == name
    ensures parent.Some? ==>
      |s| == |parent.value.fullName| + 1 + |name|
      && s[..|parent.value.fullName|] == parent.value.fullName
      && s[|parent.value.fullName|] == ':'
    ensures s[|s| - |name|..] == name
  {
    if parent.Some? then parent.value.fullName + ":" + name else name
  }

  // -------------------------------------------------------------- create

  /**
   * Why a validated new account of type `accountType` cannot be placed:
   * a malformed parent id, a parent that is not one of the user's
   * accounts, a parent of another type, or exactly one same-named sibling
   * (the duplicate query expects at most one row and finds nothing
   * wrong when it gets several).
   */
  function PlacementFailure(accounts: map<Id, AccountRow>, owner: Id, parentId: Option<string>,
                            accountType: AccountType, name: string): (r: Option<Failure>)
    ensures r.None? <==>
      (parentId.Some? ==>
         ParsedId(parentId).Some? && Owned(accounts, ParsedId(parentId).value, owner)
         && accounts[ParsedId(parentId).value].accountType == accountType)
      && |Namesakes(accounts, owner, ParsedId(parentId), name)| != 1
    ensures r == Some(ParentNotFound) <==>
      ParsedId(parentId).Some? && !Owned(accounts, ParsedId(parentId).value, owner)
    ensures r.Some? && Kind(r.value) == Conflict ==>
      r.value == DuplicateSibling(name) && |Namesakes(accounts, owner, ParsedId(parentId), name)| == 1
  {
    var parent := ParsedId(parentId);
    if parentId.Some? && parent.None? then
      assert Kind(Unexpected) == Internal;
      Some(Unexpected)
    else if parent.Some? && !Owned(accounts, parent.value, owner) then
      assert Kind(ParentNotFound) == NotFound;
      Some(ParentNotFound)
    else if parent.Some? && accounts[parent.value].accountType != accountType then
      var f := ParentTypeMismatch(accounts[parent.value].accountType);
      assert Kind(f) == BadRequest;
      Some(f)
    else
      var clash := |Namesakes(accounts, owner, parent, name)| == 1;
      if clash then Some(DuplicateSibling(name)) else None
  }

  /** Why `createAccount` refuses a request: field validation first, then placement. */
  function CreateAccountFailure(accounts: map<Id, AccountRow>, owner: Id, req: CreateAccountRequest): (r: Option<Failure>)
    ensures ValidateCreateAccount(req).Some? ==> r == ValidateCreateAccount(req)
  {
    match ValidateCreateAccount(req)
    case Some(f) => Some(f)
    case None => PlacementFailure(accounts, owner, req.parentId, ReadAccountType(req.accountType).value, req.name)
  }

  /** A new row that fits under its parent, with a free name among its siblings, keeps the account invariants. */
  lemma InsertKeepsAccounts(accounts: map<Id, AccountRow>, row: AccountRow)
    requires AccountsValid(accounts)
    requires row.id !in accounts && Canonical(row.id)
    requires ParentFits(accounts, row) && row.normalBalance == FromAccountType(row.accountType)
    requires row.parent.Some? ==> Namesakes(accounts, row.owner, row.parent, row.name) == {}
    ensures AccountsValid(accounts[row.id := row])
  {
    var m := accounts[row.id := row];
    ValidClosed(accounts);
    InsertLeaf(LinksOf(accounts), row.id, row.parent);
    assert LinksOf(m) == LinksOf(accounts)[row.id := row.parent];
    forall x, y | x in m && y in m && x != y && m[x].parent.Some?
      ensures !SameSlot(m[x], m[y])
    {
      if x == row.id {
        assert y !in Namesakes(accounts, row.owner, row.parent, row.name);
      } else if y == row.id {
        assert x !in Namesakes(accounts, row.owner, row.parent, row.name);
      }
    }
    forall id | id in m
      ensures ParentFits(m, m[id])
    {
      assert ParentFits(accounts, m[id]);
    }
  }

  /** Inserting a placed row keeps every database invariant. */
  lemma CreateKeepsValid(accounts: map<Id, AccountRow>, txns: map<Id, TxnRow>, splits: seq<SplitRow>, row: AccountRow)
    requires AccountsValid(accounts) && LedgerValid(accounts, txns, splits)
    requires row.id !in accounts && Canonical(row.id)
    requires ParentFits(accounts, row) && row.normalBalance == FromAccountType(row.accountType)
    requires |Namesakes(accounts, row.owner, row.parent, row.name)| != 1
    ensures AccountsValid(accounts[row.id := row]) && LedgerValid(accounts[row.id := row], txns, splits)
  {
    if row.parent.Some? {
      NamesakesAtMostOne(accounts, row.owner, row.parent.value, row.name);
    }
    InsertKeepsAccounts(accounts, row);
    LedgerKeepsAccounts(accounts, accounts[row.id := row], txns, splits);
  }

  /** The placement checks of `createAccount`: the parent row a new account goes under, if any. */
  method PlaceAccount(db: Database, userId: Id, parentId: Option<string>, accountType: AccountType, name: string)
    returns (r: Result<Option<AccountRow>>)
    ensures r.Err? <==> PlacementFailure(db.accounts, userId, parentId, accountType, name).Some?
    ensures r.Err? ==> Some(r.failure) == PlacementFailure(db.accounts, userId, parentId, accountType, name)
    ensures r.Ok? ==>
      && (parentId.None? ==> r.value.None?)
      && (parentId.Some? ==> ParsedId(parentId).Some? && r.value == Some(db.accounts[ParsedId(parentId).value]))
  {
    var parent: Option<Id> := None;
    if parentId.Some? {
      parent := ParseUuid(parentId.value);
      if parent.None? {
        return Err(Unexpected);
      }
    }
    var parentRow: Option<AccountRow> := None;
    if parent.Some? {
      if !(parent.value in db.accounts && db.accounts[parent.value].owner == userId) {
        return Err(ParentNotFound);
      }
      parentRow := Some(db.accounts[parent.value]);
      if parentRow.value.accountType != accountType {
        return Err(ParentTypeMismatch(parentRow.value.accountType));
      }
    }
    var existing := Namesakes(db.accounts, userId, parent, name);
    if |existing| == 1 {
      return Err(DuplicateSibling(name));
    }
    r := Ok(parentRow);
  }

  /**
   * `createAccount`: on success the new row sits under the requested
   * parent, carries the parent's full name followed by its own, and the
   * normal balance its type implies.
   */
  method CreateAccount(db: Database, userId: Id, req: CreateAccountRequest, newId: Id, now: Instant)
    returns (r: Result<AccountRow>)
    requires db.Valid()
    requires newId !in db.accounts && Canonical(newId)
    modifies db
    ensures db.Valid()
    ensures r.Err? <==> CreateAccountFailure(old(db.accounts), userId, req).Some?
    ensures r.Err? ==> Some(r.failure) == CreateAccountFailure(old(db.accounts), userId, req) && unchanged(db)
    ensures r.Ok? ==>
      var row := r.value;
      && row.id == newId && row.owner == userId && row.name == req.name
      && row.parent == ParsedId(req.parentId)
      && row.fullName == BuildFullName(if row.parent.Some? then Some(old(db.accounts)[row.parent.value]) else None, req.name)
      && Some(row.accountType) == ReadAccountType(req.accountType)
      && row.normalBalance == FromAccountType(row.accountType)
      && Some(row.currency) == ReadCurrency(req.currency)
      && row.description == req.description && row.placeholder == req.placeholder
      && row.createdAt == now && row.updatedAt == now
      && db.accounts == old(db.accounts)[newId := row]
    ensures db.transactions == old(db.transactions) && db.splits == old(db.splits) && db.users == old(db.users)
  {
    var invalid := ValidateCreateAccount(req);
    if invalid.Some? {
      return Err(invalid.value);
    }
    var accountType := ReadAccountType(req.accountType).value;
    var placed := PlaceAccount(db, userId, req.parentId, accountType, req.name);
    if placed.Err? {
      return Err(placed.failure);
    }
    var parent := placed.value;
    var fullName := BuildFullName(parent, req.name);
    var currency := ReadCurrency(req.currency).value;
    var row := AccountRow(newId, userId, ParsedId(req.parentId), req.name, fullName, accountType,
                          FromAccountType(accountType), currency, req.description, req.placeholder, now, now);
    CreateKeepsValid(db.accounts, db.transactions, db.splits, row);
    db.accounts := db.accounts[newId := row];
    r := Ok(row);
  }

  // ------------------------------------------------------ isDescendantOf

  /**
   * `isDescendantOf`: walks up the parent links from `potential`, with no
   * owner filter, until it meets `ancestor` or passes a root.
   */
  method IsDescendantOf(db: Database, potential: Id, ancestor: Id) returns (b: bool)
    requires Acyclic(LinksOf(db.accounts))
    ensures b <==> Reaches(LinksOf(db.accounts), potential, ancestor)
  {
    ghost var links := LinksOf(db.accounts);
    ghost var bound: nat := 1;
    if potential in links {
      bound :| Up(links, Some(potential), bound) == None;
    }
    ghost var k: nat := 0;
    var current: Option<Id> := Some(potential);
    while current.Some?
      invariant current == Up(links, Some(potential), k)
      invariant forall i: nat :: i < k ==> Up(links, Some(potential), i) != Some(ancestor)
      invariant k <= bound && Up(links, Some(potential), bound) == None
      decreases bound - k
    {
      if current.value == ancestor {
        return true;
      }
      if k == bound {
        assert false;
      }
      UpAdd(links, Some(potential), k, 1);
      current := if current.value in db.accounts then db.accounts[current.value].parent else None;
      k := k + 1;
    }
    forall i: nat | i >= k
      ensures Up(links, Some(potential), i) == None
    {
      UpPastNone(links, Some(potential), k, i);
    }
    return false;
  }

  // ------------------------------------------------ descendant full names

  /** The full name the parent of `y` carries in `m`, or `prefix` when that parent is `top`. */
  ghost function ParentPrefix(m: map<Id, AccountRow>, top: Id, prefix: string, y: Id): string {
    if y in m && m[y].parent.Some? && m[y].parent.value != top && m[y].parent.value in m
    then m[m[y].parent.value].fullName
    else prefix
  }

  /** `after` differs from `before` at most in full names. */
  ghost predicate FullNamesOnly(before: map<Id, AccountRow>, after: map<Id, AccountRow>) {
    after.Keys == before.Keys
    && forall y :: y in before ==> after[y] == before[y].(fullName := after[y].fullName)
  }

  /**
   * Every account below `top` now carries its parent's full name (`prefix`
   * directly under `top`), a colon and its own name; no other row and no
   * other field has changed.
   */
  ghost predicate RenamedBelow(before: map<Id, AccountRow>, after: map<Id, AccountRow>, top: Id, prefix: string) {
    FullNamesOnly(before, after)
    && (forall y :: y in before && y !in Below(LinksOf(before), top) ==> after[y] == before[y])
    && (forall y :: y in Below(LinksOf(before), top) ==>
          after[y].fullName == ParentPrefix(after, top, prefix, y) + ":" + after[y].name)
  }

  lemma SameLinks(before: map<Id, AccountRow>, after: map<Id, AccountRow>)
    requires FullNamesOnly(before, after)
    ensures LinksOf(after) == LinksOf(before)
  {
  }

  /** Changing only full names keeps every account invariant. */
  lemma FullNamesKeepAccounts(before: map<Id, AccountRow>, after: map<Id, AccountRow>)
    requires AccountsValid(before) && FullNamesOnly(before, after)
    ensures AccountsValid(after)
  {
    SameLinks(before, after);
    forall id | id in after
      ensures ParentFits(after, after[id])
    {
      assert ParentFits(before, before[id]);
    }
    forall x, y | x in after && y in after && x != y && after[x].parent.Some?
      ensures !SameSlot(after[x], after[y])
    {
      assert !SameSlot(before[x], before[y]);
    }
  }

  /** Child `c` and its whole subtree carry their final names. */
  ghost predicate Renamed(m: map<Id, AccountRow>, links: Parents, c: Id, prefix: string) {
    c in m
    && m[c].fullName == prefix + ":" + m[c].name
    && forall y :: y in Below(links, c) ==> y in m && m[y].fullName == ParentPrefix(m, c, m[c].fullName, y) + ":" + m[y].name
  }

  /** Whether a subtree carries its final names depends on that subtree's rows only. */
  lemma RenamedFrame(m1: map<Id, AccountRow>, m2: map<Id, AccountRow>, links: Parents, c: Id, prefix: string)
    requires Renamed(m1, links, c, prefix)
    requires forall y :: y in links ==> y in m1 && links[y] == m1[y].parent
    requires forall y :: y in m1 ==> y in m2 && m2[y].parent == m1[y].parent
    requires forall y :: y in Subtree(links, c) ==> y in m2 && m2[y] == m1[y]
    ensures Renamed(m2, links, c, prefix)
  {
    forall y | y in Below(links, c)
      ensures m2[y].fullName == ParentPrefix(m2, c, m2[c].fullName, y) + ":" + m2[y].name
    {
      ParentInside(links, c, y);
      assert ParentPrefix(m2, c, m2[c].fullName, y) == ParentPrefix(m1, c, m1[c].fullName, y);
    }
  }

  /** Once every child's subtree is renamed, everything below the top is. */
  lemma RenamedAll(m: map<Id, AccountRow>, links: Parents, top: Id, prefix: string)
    requires Acyclic(links) && Closed(links)
    requires forall y :: y in links ==> y in m && links[y] == m[y].parent
    requires forall c :: c in links && links[c] == Some(top) ==> Renamed(m, links, c, prefix)
    ensures forall y :: y in Below(links, top) ==> m[y].fullName == ParentPrefix(m, top, prefix, y) + ":" + m[y].name
  {
    forall y | y in Below(links, top)
      ensures m[y].fullName == ParentPrefix(m, top, prefix, y) + ":" + m[y].name
    {
      ParentInside(links, top, y);
      if links[y] != Some(top) {
        var c := ThroughChild(links, top, y);
        assert Renamed(m, links, c, prefix);
        ParentInside(links, c, y);
      }
    }
  }

  /** The children of `top`, of any user. */
  function ChildIds(accounts: map<Id, AccountRow>, top: Id): set<Id> {
    set c | c in accounts && accounts[c].parent == Some(top)
  }

  /** The rename loop over the children of `top`, with `remaining` still to do. */
  ghost predicate RenameLoop(before: map<Id, AccountRow>, m: map<Id, AccountRow>, top: Id, prefix: string,
                             remaining: set<Id>)
  {
    var links := LinksOf(before);
    remaining <= ChildIds(before, top)
    && FullNamesOnly(before, m)
    && (forall y :: y in before && y !in Below(links, top) ==> m[y] == before[y])
    && (forall c :: c in remaining ==> forall y :: y in Subtree(links, c) ==> y in m && m[y] == before[y])
    && (forall c :: c in ChildIds(before, top) - remaining ==> Renamed(m, links, c, prefix))
  }

  /** The rename loop starts with every child still to do. */
  lemma RenameStart(before: map<Id, AccountRow>, top: Id, prefix: string)
    ensures RenameLoop(before, before, top, prefix, ChildIds(before, top))
  {
  }

  /** With no child left, everything below the top carries its new name. */
  lemma RenameDone(before: map<Id, AccountRow>, m: map<Id, AccountRow>, top: Id, prefix: string)
    requires Acyclic(LinksOf(before)) && Closed(LinksOf(before))
    requires RenameLoop(before, m, top, prefix, {})
    ensures RenamedBelow(before, m, top, prefix)
  {
    var links := LinksOf(before);
    forall c | c in links && links[c] == Some(top)
      ensures Renamed(m, links, c, prefix)
    {
      assert c in ChildIds(before, top);
    }
    RenamedAll(m, links, top, prefix);
  }

  /** The rows a child's rename touches lie in that child's subtree, itself below the top. */
  lemma StepFrame(before: map<Id, AccountRow>, start: map<Id, AccountRow>, after: map<Id, AccountRow>,
                  top: Id, c: Id, newName: string)
    requires Acyclic(LinksOf(before))
    requires c in before && before[c].parent == Some(top)
    requires FullNamesOnly(before, start)
    requires forall y :: y in before && y !in Below(LinksOf(before), top) ==> start[y] == before[y]
    requires FullNamesOnly(start[c := start[c].(fullName := newName)], after)
    requires forall y :: y in start && y !in Below(LinksOf(start[c := start[c].(fullName := newName)]), c) ==>
      after[y] == start[c := start[c].(fullName := newName)][y]
    ensures FullNamesOnly(before, after)
    ensures forall y :: y in before && y !in Below(LinksOf(before), top) ==> after[y] == before[y]
    ensures forall y :: y !in Subtree(LinksOf(before), c) && y in before ==> after[y] == start[y]
  {
    var links := LinksOf(before);
    var mid := start[c := start[c].(fullName := newName)];
    assert FullNamesOnly(before, mid);
    SameLinks(before, mid);
    BelowChild(links, top, c);
    forall y | y in before
      ensures after[y] == before[y].(fullName := after[y].fullName)
    {
      assert after[y] == mid[y].(fullName := after[y].fullName);
    }
    forall y | y !in Subtree(links, c) && y in before
      ensures after[y] == start[y]
    {
      assert y !in Below(LinksOf(mid), c);
    }
    forall y | y in before && y !in Below(links, top)
      ensures after[y] == before[y]
    {
      assert y !in Subtree(links, c);
    }
  }

  /** Renaming one child's subtree leaves the other children's subtrees as they were. */
  lemma StepOthers(before: map<Id, AccountRow>, start: map<Id, AccountRow>, after: map<Id, AccountRow>,
                   top: Id, prefix: string, remaining: set<Id>, c: Id)
    requires Acyclic(LinksOf(before)) && top in before
    requires FullNamesOnly(before, start) && FullNamesOnly(before, after)
    requires remaining <= ChildIds(before, top) && c in remaining
    requires forall d :: d in remaining ==> forall y :: y in Subtree(LinksOf(before), d) ==> y in start && start[y] == before[y]
    requires forall d :: d in ChildIds(before, top) - remaining ==> Renamed(start, LinksOf(before), d, prefix)
    requires forall y :: y !in Subtree(LinksOf(before), c) && y in before ==> after[y] == start[y]
    ensures forall d :: d in remaining - {c} ==> forall y :: y in Subtree(LinksOf(before), d) ==> y in after && after[y] == before[y]
    ensures forall d :: d in ChildIds(before, top) - remaining ==> Renamed(after, LinksOf(before), d, prefix)
  {
    var links := LinksOf(before);
    forall d | d in ChildIds(before, top) - remaining
      ensures Renamed(after, links, d, prefix)
    {
      ChildrenDisjoint(links, top, c, d);
      RenamedFrame(start, after, links, d, prefix);
    }
    forall d | d in remaining - {c}
      ensures forall y :: y in Subtree(links, d) ==> y in after && after[y] == before[y]
    {
      ChildrenDisjoint(links, top, c, d);
    }
  }

  /** Renaming child `c` and its subtree keeps the loop's invariant, with `c` done. */
  lemma RenameStep(before: map<Id, AccountRow>, start: map<Id, AccountRow>, after: map<Id, AccountRow>,
                   top: Id, prefix: string, remaining: set<Id>, c: Id)
    requires Acyclic(LinksOf(before)) && top in before
    requires RenameLoop(before, start, top, prefix, remaining) && c in remaining
    requires RenamedBelow(start[c := start[c].(fullName := prefix + ":" + start[c].name)], after, c,
                          prefix + ":" + start[c].name)
    ensures RenameLoop(before, after, top, prefix, remaining - {c})
  {
    var links := LinksOf(before);
    var mid := start[c := start[c].(fullName := prefix + ":" + start[c].name)];
    StepFrame(before, start, after, top, c, prefix + ":" + start[c].name);
    StepOthers(before, start, after, top, prefix, remaining, c);
    SameLinks(before, mid);
    assert c !in Below(links, c);
    assert Renamed(after, links, c, prefix);
  }

  /**
   * `updateDescendantFullNames`: gives every child of `parentId` the full
   * name `parentFullName:name`, then does the same below each child.
   */
  method UpdateDescendantFullNames(db: Database, parentId: Id, parentFullName: string)
    requires Acyclic(LinksOf(db.accounts)) && Closed(LinksOf(db.accounts)) && parentId in db.accounts
    modifies db
    ensures RenamedBelow(old(db.accounts), db.accounts, parentId, parentFullName)
    ensures db.transactions == old(db.transactions) && db.splits == old(db.splits) && db.users == old(db.users)
    decreases |Below(LinksOf(db.accounts), parentId)|, 1
  {
    ghost var before := db.accounts;
    ghost var links := LinksOf(before);
    var remaining := ChildIds(db.accounts, parentId);
    RenameStart(before, parentId, parentFullName);
    while remaining != {}
      invariant RenameLoop(before, db.accounts, parentId, parentFullName, remaining)
      invariant db.transactions == old(db.transactions) && db.splits == old(db.splits) && db.users == old(db.users)
      decreases remaining
    {
      var c :| c in remaining;
      ghost var start := db.accounts;
      BelowChild(links, parentId, c);
      SameLinks(before, db.accounts);
      RenameChild(db, c, parentFullName);
      RenameStep(before, start, db.accounts, parentId, parentFullName, remaining, c);
      remaining := remaining - {c};
    }
    RenameDone(before, db.accounts, parentId, parentFullName);
  }

  /** One pass of the loop above: renames child `c` under `prefix`, then its subtree. */
  method RenameChild(db: Database, c: Id, prefix: string)
    requires Acyclic(LinksOf(db.accounts)) && Closed(LinksOf(db.accounts)) && c in db.accounts
    modifies db
    ensures RenamedBelow(old(db.accounts)[c := old(db.accounts)[c].(fullName := prefix + ":" + old(db.accounts)[c].name)],
                         db.accounts, c, prefix + ":" + old(db.accounts)[c].name)
    ensures db.transactions == old(db.transactions) && db.splits == old(db.splits) && db.users == old(db.users)
    decreases |Below(LinksOf(db.accounts), c)| + 1, 0
  {
    ghost var start := db.accounts;
    var newFullName := prefix + ":" + db.accounts[c].name;
    db.accounts := db.accounts[c := db.accounts[c].(fullName := newFullName)];
    SameLinks(start, db.accounts);
    UpdateDescendantFullNames(db, c, newFullName);
  }

  // -------------------------------------------------------------- update

  /** Whether an update names a parent, compared as text with the current one (a root never matches). */
  predicate ParentChanging(account: AccountRow, req: UpdateAccountRequest) {
    req.parentId.Some? && (account.parent.None? || req.parentId.value != account.parent.value)
  }

  /**
   * The row an update writes: the new name, description and parent where
   * given, and a full name built from the named parent. Without a
   * `parentId` in the request the full name is the bare name, even for an
   * account that keeps a parent.
   */
  function UpdatedRow(accounts: map<Id, AccountRow>, account: AccountRow, req: UpdateAccountRequest, now: Instant)
    : (row: AccountRow)
    ensures row == account.(name := row.name, description := row.description, parent := row.parent,
                            fullName := row.fullName, updatedAt := now)
    ensures row.name == req.name.GetOr(account.name)
    ensures req.parentId.None? ==> row.parent == account.parent && row.fullName == row.name
    ensures req.parentId.Some? && ParsedId(req.parentId).Some? && ParsedId(req.parentId).value in accounts ==>
      row.fullName == accounts[ParsedId(req.parentId).value].fullName + ":" + row.name
  {
    var newParent := ParsedId(req.parentId);
    var name := req.name.GetOr(account.name);
    var parentRow := if newParent.Some? && newParent.value in accounts then Some(accounts[newParent.value]) else None;
    account.(name := name,
             description := if req.description.Some? then req.description else account.description,
             parent := if req.parentId.Some? then newParent else account.parent,
             fullName := BuildFullName(parentRow, name),
             updatedAt := now)
  }

  /** The written row would share its `(user, parent, name)` key with another account. */
  predicate IndexClash(accounts: map<Id, AccountRow>, x: Id, row: AccountRow) {
    row.parent.Some? && exists y :: y in accounts && y != x && SameSlot(accounts[y], row)
  }

  /** Why a move of account `x` under `np` is refused: a missing parent, another type, or a cycle. */
  ghost function MoveFailure(accounts: map<Id, AccountRow>, owner: Id, x: Id, np: Id): (r: Option<Failure>)
    requires x in accounts
    ensures r.None? <==>
      Owned(accounts, np, owner) && accounts[np].accountType == accounts[x].accountType
      && !Reaches(LinksOf(accounts), np, x)
    ensures r.Some? ==> Kind(r.value) == (if r.value == NewParentNotFound then NotFound else BadRequest)
  {
    if !Owned(accounts, np, owner) then Some(NewParentNotFound)
    else if accounts[np].accountType != accounts[x].accountType then Some(MoveTypeMismatch)
    else if Reaches(LinksOf(accounts), np, x) then Some(MoveUnderDescendant)
    else None
  }

  /** Why `updateAccount` refuses a request, in the order the service checks. */
  ghost function UpdateAccountFailure(accounts: map<Id, AccountRow>, owner: Id, accountId: string,
                                      req: UpdateAccountRequest, now: Instant): (r: Option<Failure>)
    ensures r.None? ==> ParseUuid(accountId).Some? && Owned(accounts, ParseUuid(accountId).value, owner)
    ensures r.None? ==> req.parentId.Some? ==> ParsedId(req.parentId).Some?
    ensures r.None? && ParentChanging(accounts[ParseUuid(accountId).value], req) ==>
      var np := ParsedId(req.parentId);
      np.Some? && Owned(accounts, np.value, owner)
      && accounts[np.value].accountType == accounts[ParseUuid(accountId).value].accountType
      && !Reaches(LinksOf(accounts), np.value, ParseUuid(accountId).value)
  {
    if ParseUuid(accountId).None? then Some(Unexpected)
    else
      var x := ParseUuid(accountId).value;
      if !Owned(accounts, x, owner) then Some(AccountNotFound)
      else if req.parentId.Some? && ParsedId(req.parentId).None? then Some(Unexpected)
      else
        var account := accounts[x];
        if ParentChanging(account, req) && MoveFailure(accounts, owner, x, ParsedId(req.parentId).value).Some? then
          MoveFailure(accounts, owner, x, ParsedId(req.parentId).value)
        else if IndexClash(accounts, x, UpdatedRow(accounts, account, req, now)) then Some(Unexpected)
        else None
  }

  /** Rewriting one row with a parent that creates no cycle keeps the forest. */
  lemma RewriteKeepsForest(accounts: map<Id, AccountRow>, row: AccountRow)
    requires Acyclic(LinksOf(accounts)) && row.id in accounts
    requires row.parent.Some? ==> row.parent.value in accounts
    requires row.parent != accounts[row.id].parent ==>
      row.parent.Some? && !Reaches(LinksOf(accounts), row.parent.value, row.id)
    ensures Acyclic(LinksOf(accounts[row.id := row]))
  {
    var links := LinksOf(accounts);
    assert LinksOf(accounts[row.id := row]) == links[row.id := row.parent];
    if row.parent == accounts[row.id].parent {
      assert links[row.id := row.parent] == links;
    } else {
      Reparent(links, row.id, row.parent.value);
    }
  }

  /** Rewriting one row with a parent that fits, keeping owner and type, keeps every parent fitting. */
  lemma RewriteKeepsFits(accounts: map<Id, AccountRow>, row: AccountRow)
    requires AllFit(accounts) && row.id in accounts
    requires row.owner == accounts[row.id].owner && row.accountType == accounts[row.id].accountType
    requires ParentFits(accounts, row)
    ensures AllFit(accounts[row.id := row])
  {
    var m := accounts[row.id := row];
    forall id | id in m
      ensures ParentFits(m, m[id])
    {
      assert ParentFits(accounts, accounts[id]);
    }
  }

  /** Rewriting one row to a key no other account holds keeps the sibling index. */
  lemma RewriteKeepsIndex(accounts: map<Id, AccountRow>, row: AccountRow)
    requires SiblingIndex(accounts) && row.id in accounts
    requires row.owner == accounts[row.id].owner
    requires !IndexClash(accounts, row.id, row)
    ensures SiblingIndex(accounts[row.id := row])
  {
    var m := accounts[row.id := row];
    forall x, y | x in m && y in m && x != y && m[x].parent.Some?
      ensures !SameSlot(m[x], m[y])
    {
      if x != row.id && y != row.id {
        assert !SameSlot(accounts[x], accounts[y]);
      }
    }
  }

  /**
   * Rewriting one row, keeping its parent or moving it under a fitting
   * parent outside its subtree, keeps the account and ledger invariants.
   */
  lemma RewriteKeepsValid(accounts: map<Id, AccountRow>, txns: map<Id, TxnRow>, splits: seq<SplitRow>, row: AccountRow)
    requires AccountsValid(accounts) && LedgerValid(accounts, txns, splits) && row.id in accounts
    requires var old_ := accounts[row.id];
      row.id == old_.id && row.owner == old_.owner && row.accountType == old_.accountType
      && row.normalBalance == old_.normalBalance && row.placeholder == old_.placeholder
    requires row.parent == accounts[row.id].parent
      || (row.parent.Some? && row.parent.value in accounts && accounts[row.parent.value].owner == row.owner
          && accounts[row.parent.value].accountType == row.accountType
          && !Reaches(LinksOf(accounts), row.parent.value, row.id))
    requires !IndexClash(accounts, row.id, row)
    ensures AccountsValid(accounts[row.id := row]) && LedgerValid(accounts[row.id := row], txns, splits)
  {
    var m := accounts[row.id := row];
    assert ParentFits(accounts, accounts[row.id]);
    RewriteKeepsForest(accounts, row);
    RewriteKeepsFits(accounts, row);
    RewriteKeepsIndex(accounts, row);
    forall id | id in m
      ensures m[id].id == id && Canonical(id) && m[id].normalBalance == FromAccountType(m[id].accountType)
    {
    }
    LedgerKeepsAccounts(accounts, m, txns, splits);
  }

  /** The parent an update that passes every check writes: the old one, or a fitting one with no cycle. */
  lemma UpdatedParent(accounts: map<Id, AccountRow>, owner: Id, accountId: string, req: UpdateAccountRequest, now: Instant)
    requires AccountsValid(accounts)
    requires UpdateAccountFailure(accounts, owner, accountId, req, now).None?
    ensures var x := ParseUuid(accountId).value;
      var row := UpdatedRow(accounts, accounts[x], req, now);
      row.parent == accounts[x].parent
      || (row.parent.Some? && row.parent.value in accounts && accounts[row.parent.value].owner == row.owner
          && accounts[row.parent.value].accountType == row.accountType
          && !Reaches(LinksOf(accounts), row.parent.value, x))
  {
    var x := ParseUuid(accountId).value;
    var account := accounts[x];
    if req.parentId.Some? && !ParentChanging(account, req) {
      ParseCanonical(account.parent.value);
    }
  }

  /** The move checks of `updateAccount`, in its order; the cycle check walks up from the new parent. */
  method CheckMove(db: Database, userId: Id, x: Id, np: Id) returns (r: Option<Failure>)
    requires Acyclic(LinksOf(db.accounts)) && x in db.accounts
    ensures r == MoveFailure(db.accounts, userId, x, np)
  {
    if !(np in db.accounts && db.accounts[np].owner == userId) {
      return Some(NewParentNotFound);
    }
    if db.accounts[np].accountType != db.accounts[x].accountType {
      return Some(MoveTypeMismatch);
    }
    var cyclic := IsDescendantOf(db, np, x);
    if cyclic {
      return Some(MoveUnderDescendant);
    }
    return None;
  }

  /** The checks of `updateAccount`, ending in the row it would write. */
  method CheckUpdate(db: Database, userId: Id, accountId: string, req: UpdateAccountRequest, now: Instant)
    returns (r: Result<AccountRow>)
    requires Acyclic(LinksOf(db.accounts))
    ensures r.Err? <==> UpdateAccountFailure(db.accounts, userId, accountId, req, now).Some?
    ensures r.Err? ==> Some(r.failure) == UpdateAccountFailure(db.accounts, userId, accountId, req, now)
    ensures r.Ok? ==> r.value == UpdatedRow(db.accounts, db.accounts[ParseUuid(accountId).value], req, now)
  {
    var parsed := ParseUuid(accountId);
    if parsed.None? {
      return Err(Unexpected);
    }
    var x := parsed.value;
    if !(x in db.accounts && db.accounts[x].owner == userId) {
      return Err(AccountNotFound);
    }
    var account := db.accounts[x];
    var newParent: Option<Id> := None;
    if req.parentId.Some? {
      newParent := ParseUuid(req.parentId.value);
      if newParent.None? {
        return Err(Unexpected);
      }
    }
    if ParentChanging(account, req) {
      var refused := CheckMove(db, userId, x, newParent.value);
      if refused.Some? {
        return Err(refused.value);
      }
    }
    var parentRow: Option<AccountRow> := None;
    if newParent.Some? && newParent.value in db.accounts {
      parentRow := Some(db.accounts[newParent.value]);
    }
    var newName := if req.name.Some? then req.name.value else account.name;
    var row := account.(name := newName,
                        description := if req.description.Some? then req.description else account.description,
                        parent := if req.parentId.Some? then newParent else account.parent,
                        fullName := BuildFullName(parentRow, newName),
                        updatedAt := now);
    assert row == UpdatedRow(db.accounts, account, req, now);
    if IndexClash(db.accounts, x, row) {
      return Err(Unexpected);
    }
    return Ok(row);
  }

  /**
   * `updateAccount`: refuses a move to a missing parent, to a parent of
   * another type, or under the account itself or one of its descendants;
   * writes the row and gives every descendant a full name rebuilt from
   * the account's new one.
   */
  method UpdateAccount(db: Database, userId: Id, accountId: string, req: UpdateAccountRequest, now: Instant)
    returns (r: Result<AccountRow>)
    requires db.Valid()
    modifies db
    ensures db.Valid()
    ensures r.Err? <==> UpdateAccountFailure(old(db.accounts), userId, accountId, req, now).Some?
    ensures r.Err? ==>
      Some(r.failure) == UpdateAccountFailure(old(db.accounts), userId, accountId, req, now) && unchanged(db)
    ensures r.Ok? ==>
      var x := ParseUuid(accountId).value;
      var row := UpdatedRow(old(db.accounts), old(db.accounts)[x], req, now);
      r.value == row && RenamedBelow(old(db.accounts)[x := row], db.accounts, x, row.fullName)
    ensures db.transactions == old(db.transactions) && db.splits == old(db.splits) && db.users == old(db.users)
  {
    var checked := CheckUpdate(db, userId, accountId, req, now);
    if checked.Err? {
      return Err(checked.failure);
    }
    UpdatedParent(db.accounts, userId, accountId, req, now);
    var written := WriteUpdate(db, checked.value);
    return Ok(written);
  }

  /** The writes of `updateAccount`: the row itself, then the full names below it. */
  method WriteUpdate(db: Database, row: AccountRow) returns (written: AccountRow)
    requires db.Valid() && row.id in db.accounts
    requires var old_ := db.accounts[row.id];
      row.id == old_.id && row.owner == old_.owner && row.accountType == old_.accountType
      && row.normalBalance == old_.normalBalance && row.placeholder == old_.placeholder
    requires row.parent == db.accounts[row.id].parent
      || (row.parent.Some? && row.parent.value in db.accounts && db.accounts[row.parent.value].owner == row.owner
          && db.accounts[row.parent.value].accountType == row.accountType
          && !Reaches(LinksOf(db.accounts), row.parent.value, row.id))
    requires !IndexClash(db.accounts, row.id, row)
    modifies db
    ensures db.Valid()
    ensures written == row && RenamedBelow(old(db.accounts)[row.id := row], db.accounts, row.id, row.fullName)
    ensures db.transactions == old(db.transactions) && db.splits == old(db.splits) && db.users == old(db.users)
  {
    var x := row.id;
    RewriteKeepsValid(db.accounts, db.transactions, db.splits, row);
    db.accounts := db.accounts[x := row];
    ghost var mid := db.accounts;
    ValidClosed(mid);
    UpdateDescendantFullNames(db, x, row.fullName);
    RenameKeepsValid(mid, db.accounts, db.transactions, db.splits, x, row.fullName);
    written := db.accounts[x];
  }

  /** Rewriting the full names below `x` keeps the account forest and the ledger valid, and leaves `x` itself alone. */
  lemma RenameKeepsValid(before: map<Id, AccountRow>, after: map<Id, AccountRow>, txns: map<Id, TxnRow>,
                         splits: seq<SplitRow>, x: Id, prefix: string)
    requires AccountsValid(before) && LedgerValid(before, txns, splits) && x in before
    requires RenamedBelow(before, after, x, prefix)
    ensures AccountsValid(after) && LedgerValid(after, txns, splits)
    ensures x in after && after[x] == before[x]
  {
    FullNamesKeepAccounts(before, after);
    LedgerKeepsAccounts(before, after, txns, splits);
    assert x !in Below(LinksOf(before), x);
  }

  // -------------------------------------------------------------- delete

  /** Some account, of any user, names `x` as its parent. */
  predicate HasChildren(accounts: map<Id, AccountRow>, x: Id) {
    exists c :: c in accounts && accounts[c].parent == Some(x)
  }

  /** Why `deleteAccount` refuses, in the order the service checks: postings are checked before children. */
  function DeleteAccountFailure(accounts: map<Id, AccountRow>, splits: seq<SplitRow>, owner: Id, accountId: string)
    : (r: Option<Failure>)
    ensures r.None? <==>
      ParseUuid(accountId).Some? && Owned(accounts, ParseUuid(accountId).value, owner)
      && !Posted(splits, ParseUuid(accountId).value) && !HasChildren(accounts, ParseUuid(accountId).value)
    ensures r == Some(AccountHasChildren) ==> ParseUuid(accountId).Some? && !Posted(splits, ParseUuid(accountId).value)
  {
    if ParseUuid(accountId).None? then Some(Unexpected)
    else
      var x := ParseUuid(accountId).value;
      if !Owned(accounts, x, owner) then Some(AccountNotFound)
      else if Posted(splits, x) then Some(AccountHasTransactions)
      else if HasChildren(accounts, x) then Some(AccountHasChildren)
      else None
  }

  /** `deleteAccount`: only an account with no splits and no children goes, and nothing else does. */
  method DeleteAccount(db: Database, userId: Id, accountId: string) returns (r: Result<()>)
    requires db.Valid()
    modifies db
    ensures db.Valid()
    ensures r.Err? <==> DeleteAccountFailure(old(db.accounts), old(db.splits), userId, accountId).Some?
    ensures r.Err? ==>
      Some(r.failure) == DeleteAccountFailure(old(db.accounts), old(db.splits), userId, accountId) && unchanged(db)
    ensures r.Ok? ==> db.accounts == old(db.accounts) - {ParseUuid(accountId).value}
    ensures db.transactions == old(db.transactions) && db.splits == old(db.splits) && db.users == old(db.users)
  {
    var parsed := ParseUuid(accountId);
    if parsed.None? {
      return Err(Unexpected);
    }
    var x := parsed.value;
    if !(x in db.accounts && db.accounts[x].owner == userId) {
      return Err(AccountNotFound);
    }
    if Posted(db.splits, x) {
      return Err(AccountHasTransactions);
    }
    if HasChildren(db.accounts, x) {
      return Err(AccountHasChildren);
    }
    RemoveKeepsValid(db.accounts, db.transactions, db.splits, x);
    db.accounts := db.accounts - {x};
    r := Ok(());
  }

  /** Removing an account with no splits and no children keeps the account and ledger invariants. */
  lemma RemoveKeepsValid(accounts: map<Id, AccountRow>, txns: map<Id, TxnRow>, splits: seq<SplitRow>, x: Id)
    requires AccountsValid(accounts) && LedgerValid(accounts, txns, splits)
    requires x in accounts && !Posted(splits, x) && !HasChildren(accounts, x)
    ensures AccountsValid(accounts - {x}) && LedgerValid(accounts - {x}, txns, splits)
  {
    var m := accounts - {x};
    Remove(LinksOf(accounts), LinksOf(m));
    forall id | id in m
      ensures ParentFits(m, m[id])
    {
      assert ParentFits(accounts, accounts[id]);
    }
    LedgerKeepsAccounts(accounts, m, txns, splits);
  }

  // ------------------------------------------------------------- balance

  /** What the balance query returns: the sum of every split on the account, or `ZERO` when there is none. */
  function Balance(splits: seq<SplitRow>, a: Id): (d: Decimal.Dec)
    ensures 0 <= d.scale <= 4
    ensures Decimal.Value(d) == AccountSum(splits, a) as real / 10000.0
  {
    if Posted(splits, a) then ColumnDec(AccountSum(splits, a))
    else
      NotPostedSum(splits, a);
      Decimal.Zero
  }

  /**
   * `getAccountBalance`: the sum of every split posted to one of the
   * user's accounts, voided transactions and all currencies included.
   */
  method GetAccountBalance(db: Database, userId: Id, accountId: string) returns (r: Result<Decimal.Dec>)
    ensures ParseUuid(accountId).None? ==> r == Err(Unexpected)
    ensures ParseUuid(accountId).Some? && !Owned(db.accounts, ParseUuid(accountId).value, userId) ==>
      r == Err(AccountNotFound)
    ensures ParseUuid(accountId).Some? && Owned(db.accounts, ParseUuid(accountId).value, userId) ==>
      r.Ok? && Decimal.Value(r.value) == AccountSum(db.splits, ParseUuid(accountId).value) as real / 10000.0
  {
    var parsed := ParseUuid(accountId);
    if parsed.None? {
      return Err(Unexpected);
    }
    var x := parsed.value;
    if !(x in db.accounts && db.accounts[x].owner == userId) {
      return Err(AccountNotFound);
    }
    r := Ok(Balance(db.splits, x));
  }
}
