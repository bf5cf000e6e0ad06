/**
 * The register screen's view model: the register shown, the selected
 * row, which transactions are expanded, the cache of their details and
 * which of them are being fetched, plus the two-split transfer it sends
 * when a new row is saved. Each coroutine runs to completion in one step,
 * with the outcome of every API call a parameter.
 */
module RegisterViewModel {
  import opened Wrappers
  import opened Uuid
  import opened Tables
  import opened Decimal
  import opened ClientModels
  import opened ApiResults
  import opened SplitValidation

  // ------------------------------------------------------- transfer request

  /**
   * The two splits of a simple transfer: the open account with the amount
   * as typed, the transfer account with the parsed amount negated and
   * printed back, both in the transfer account's currency.
   */
  function TransferSplits(accountId: string, amount: string, transferAccountId: string, currency: string, d: Dec)
    : (splits: seq<SplitRequest>)
    requires ParseDecimal(amount) == Some(d)
    ensures |splits| == 2
    ensures splits[0].accountId == accountId && splits[0].amount == amount
    ensures splits[1].accountId == transferAccountId && ParseDecimal(splits[1].amount) == Some(Neg(d))
    ensures splits[0].currency == splits[1].currency == currency
  {
    ParseRender(Neg(d));
    [SplitRequest(accountId, amount, currency, None, None),
     SplitRequest(transferAccountId, Render(Neg(d)), currency, None, None)]
  }

  function TransferRequest(date: string, num: Option<string>, description: string, accountId: string, amount: string,
                           transferAccountId: string, currency: string, d: Dec): CreateTransactionRequest
    requires ParseDecimal(amount) == Some(d)
  {
    CreateTransactionRequest(date, num, description, None, TransferSplits(accountId, amount, transferAccountId, currency, d))
  }

  lemma TransferPostings(accountId: string, amount: string, transferAccountId: string, currency: string, d: Dec)
    requires ParseDecimal(amount) == Some(d)
    requires ParseUuid(accountId).Some? && ParseUuid(transferAccountId).Some? && ReadCurrency(currency).Some?
    ensures var splits := TransferSplits(accountId, amount, transferAccountId, currency, d);
      AllWellFormed(splits) &&
      Postings(splits) == [Posting(ParseUuid(accountId).value, d, ReadCurrency(currency).value, None, None),
                           Posting(ParseUuid(transferAccountId).value, Neg(d), ReadCurrency(currency).value, None, None)]
  {
    var splits := TransferSplits(accountId, amount, transferAccountId, currency, d);
    var cur := ReadCurrency(currency).value;
    ReadBare(splits[0], ParseUuid(accountId).value, d, cur);
    ReadBare(splits[1], ParseUuid(transferAccountId).value, Neg(d), cur);
    PostingsOfTwo(splits);
  }

  /** A split with no memo and no status reads as its three fields. */
  lemma ReadBare(s: SplitRequest, id: Id, amount: Dec, cur: Currency)
    requires ParseUuid(s.accountId) == Some(id) && ParseDecimal(s.amount) == Some(amount)
    requires ReadCurrency(s.currency) == Some(cur) && s.memo.None? && s.reconcileStatus.None?
    ensures WellFormed(s) && Read(s) == Posting(id, amount, cur, None, None)
  {
  }

  lemma PostingsOfTwo(splits: seq<SplitRequest>)
    requires |splits| == 2 && WellFormed(splits[0]) && WellFormed(splits[1])
    ensures AllWellFormed(splits) && Postings(splits) == [Read(splits[0]), Read(splits[1])]
  {
    assert AllWellFormed(splits) by {
      forall i | 0 <= i < |splits|
        ensures WellFormed(splits[i])
      {
        assert i == 0 || i == 1;
      }
    }
    var ps := Postings(splits);
    assert ps == [ps[0], ps[1]];
  }

  lemma TransferGroupSums(ps: seq<Posting>, d: Dec)
    requires |ps| == 2 && ps[0].amount == d && ps[1].amount == Neg(d) && ps[0].currency == ps[1].currency
    ensures forall c :: Value(GroupSum(ps, c)) == 0.0
  {
    var p1 := ps[..1];
    assert p1[..0] == [] && ps[..|ps| - 1] == p1 && p1[|p1| - 1] == ps[0];
    forall c
      ensures Value(GroupSum(ps, c)) == 0.0
    {
      var acc := GroupSum(p1, c);
      assert GroupSum(p1[..0], c) == Zero;
      assert acc == if ps[0].currency == c then Add(Zero, d) else Zero;
      assert GroupSum(ps, c) == if ps[1].currency == c then Add(acc, Neg(d)) else acc;
      if c == ps[0].currency {
        AddValue(Zero, d);
        AddValue(Add(Zero, d), Neg(d));
        NegValue(d);
      }
    }
  }

  lemma TransferStoredSums(ps: seq<Posting>, d: Dec)
    requires |ps| == 2 && ps[0].amount == d && ps[1].amount == Neg(d) && ps[0].currency == ps[1].currency
    ensures forall c :: StoredGroupSum(ps, c) == 0
  {
    var p1 := ps[..1];
    assert p1[..0] == [] && ps[..|ps| - 1] == p1 && p1[|p1| - 1] == ps[0];
    NegRound4(d);
    forall c
      ensures StoredGroupSum(ps, c) == 0
    {
      assert StoredGroupSum(p1, c) == if ps[0].currency == c then Round4(d) else 0;
      assert StoredGroupSum(ps, c) == StoredGroupSum(p1, c) + if ps[1].currency == c then Round4(Neg(d)) else 0;
    }
  }

  /**
   * The transfer the register sends always balances, both as typed and as
   * stored: whenever its ids and currency read, the service's splits rule
   * accepts it.
   */
  lemma TransferBalances(accountId: string, amount: string, transferAccountId: string, currency: string, d: Dec)
    requires ParseDecimal(amount) == Some(d)
    requires ParseUuid(accountId).Some? && ParseUuid(transferAccountId).Some? && ReadCurrency(currency).Some?
    ensures ValidateSplits(TransferSplits(accountId, amount, transferAccountId, currency, d)).None?
    ensures ValidateStoredSplits(TransferSplits(accountId, amount, transferAccountId, currency, d)).None?
  {
    var splits := TransferSplits(accountId, amount, transferAccountId, currency, d);
    TransferPostings(accountId, amount, transferAccountId, currency, d);
    TransferGroupSums(Postings(splits), d);
    TransferStoredSums(Postings(splits), d);
  }

  // ------------------------------------------------------------ the view model

  datatype RegisterState = RegisterState(
    isLoading: bool,
    accountId: Option<string>,
    accountName: string,
    accountType: string,
    normalBalance: string,
    entries: seq<RegisterEntryInfo>,
    openingBalance: string,
    closingBalance: string,
    selectedEntryIndex: Option<int>,
    expandedTransactionIds: set<string>,
    transactionDetails: map<string, TransactionInfo>,
    loadingTransactionIds: set<string>,
    error: Option<string>)

  /** `RegisterState()`: nothing loaded, a debit account, zero balances. */
  const Default := RegisterState(false, None, "", "", "DEBIT", [], "0", "0", None, {}, map[], {}, None)

  /** The register fields of a state hold a response from the server. */
  predicate Shows(s: RegisterState, r: RegisterResponse) {
    s.accountId == Some(r.accountId) && s.accountName == r.accountName && s.accountType == r.accountType &&
    s.normalBalance == r.normalBalance && s.entries == r.entries &&
    s.openingBalance == r.openingBalance && s.closingBalance == r.closingBalance
  }

  /** Two states agree on the selection, the expanded ids, the detail cache and the ids being fetched. */
  predicate SameRows(s: RegisterState, t: RegisterState) {
    s.selectedEntryIndex == t.selectedEntryIndex && s.expandedTransactionIds == t.expandedTransactionIds &&
    s.transactionDetails == t.transactionDetails && s.loadingTransactionIds == t.loadingTransactionIds
  }

  /** Two states show the same register. */
  predicate SameRegister(s: RegisterState, t: RegisterState) {
    s.accountId == t.accountId && s.accountName == t.accountName && s.accountType == t.accountType &&
    s.normalBalance == t.normalBalance && s.entries == t.entries &&
    s.openingBalance == t.openingBalance && s.closingBalance == t.closingBalance
  }

  /** The state after `loadRegister` ran to completion. */
  function Loaded(s: RegisterState, id: string, result: ApiResult<RegisterResponse>): (t: RegisterState)
    ensures !t.isLoading && SameRows(s, t)
    ensures result.Success? ==> Shows(t, result.data) && t.error == None
    ensures result.Error? ==>
      t.accountId == Some(id) && SameRegister(s.(accountId := Some(id)), t) && t.error == Some(result.message)
  {
    var started := s.(isLoading := true, error := None, accountId := Some(id));
    match result
    case Success(r) =>
      started.(isLoading := false, accountId := Some(r.accountId), accountName := r.accountName,
               accountType := r.accountType, normalBalance := r.normalBalance, entries := r.entries,
               openingBalance := r.openingBalance, closingBalance := r.closingBalance)
    case Error(message, _) =>
      started.(isLoading := false, error := Some(message))
  }

  /** A failed load does not lose the register that was shown, apart from the requested id. */
  lemma FailedLoadKeepsRegister(s: RegisterState, id: string, message: string, code: Option<int>)
    ensures var t := Loaded(s, id, Error(message, code));
      t.entries == s.entries && t.closingBalance == s.closingBalance && t.accountName == s.accountName
  {
  }

  /** Loading the same successful response twice is loading it once. */
  lemma LoadIdempotent(s: RegisterState, id: string, r: RegisterResponse)
    ensures Loaded(Loaded(s, id, Success(r)), id, Success(r)) == Loaded(s, id, Success(r))
  {
  }

  /** The expanded set with one id flipped. */
  function ToggledIds(ids: set<string>, id: string): (r: set<string>)
    ensures id in r <==> id !in ids
    ensures forall x :: x != id ==> (x in r <==> x in ids)
  {
    if id !in ids then ids + {id} else ids - {id}
  }

  class RegisterViewModel {
    var state: RegisterState

    constructor ()
      ensures state == Default
    {
      state := Default;
    }

    /**
     * `loadRegister`: the requested id is recorded at once; a success
     * then shows the response, a failure keeps the old register and shows
     * the message.
     */
    method LoadRegister(id: string, result: ApiResult<RegisterResponse>)
      modifies this
      ensures state == Loaded(old(state), id, result)
    {
      state := state.(isLoading := true, error := None, accountId := Some(id));
      match result
      case Success(r) =>
        state := state.(isLoading := false, accountId := Some(r.accountId), accountName := r.accountName,
                        accountType := r.accountType, normalBalance := r.normalBalance, entries := r.entries,
                        openingBalance := r.openingBalance, closingBalance := r.closingBalance);
      case Error(message, _) =>
        state := state.(isLoading := false, error := Some(message));
    }

    /** `selectEntry`: only the selection changes. */
    method SelectEntry(index: Option<int>)
      modifies this
      ensures state == old(state).(selectedEntryIndex := index)
    {
      state := state.(selectedEntryIndex := index);
    }

    /**
     * `toggleExpandTransaction`: flips the id's membership, and asks for
     * the details (`fetch`) only when expanding an id not yet cached.
     */
    method ToggleExpandTransaction(transactionId: string) returns (fetch: bool)
      modifies this
      ensures state == old(state).(expandedTransactionIds := ToggledIds(old(state).expandedTransactionIds, transactionId))
      ensures fetch <==> transactionId !in old(state).expandedTransactionIds && transactionId !in state.transactionDetails
    {
      var current := state.expandedTransactionIds;
      var isExpanding := transactionId !in current;
      state := state.(expandedTransactionIds := if isExpanding then current + {transactionId} else current - {transactionId});
      fetch := isExpanding && transactionId !in state.transactionDetails;
    }

    /** The first half of `loadTransactionDetails`: the id is marked as being fetched. */
    method BeginTransactionDetails(transactionId: string)
      modifies this
      ensures state == old(state).(loadingTransactionIds := old(state).loadingTransactionIds + {transactionId})
      ensures IsTransactionLoading(transactionId)
    {
      state := state.(loadingTransactionIds := state.loadingTransactionIds + {transactionId});
    }

    /**
     * The second half: the id stops being fetched either way; a success
     * caches the transaction, a failure shows the message.
     */
    method FinishTransactionDetails(transactionId: string, result: ApiResult<TransactionInfo>)
      modifies this
      ensures result.Success? ==>
        state == old(state).(transactionDetails := old(state).transactionDetails[transactionId := result.data],
                             loadingTransactionIds := old(state).loadingTransactionIds - {transactionId})
      ensures result.Error? ==>
        state == old(state).(loadingTransactionIds := old(state).loadingTransactionIds - {transactionId},
                             error := Some("Failed to load transaction: " + result.message))
      ensures !IsTransactionLoading(transactionId)
    {
      match result
      case Success(transaction) =>
        state := state.(transactionDetails := state.transactionDetails[transactionId := transaction],
                        loadingTransactionIds := state.loadingTransactionIds - {transactionId});
      case Error(message, _) =>
        state := state.(loadingTransactionIds := state.loadingTransactionIds - {transactionId},
                        error := Some("Failed to load transaction: " + message));
    }

    /** `loadTransactionDetails` run to completion: a success leaves the splits cached. */
    method LoadTransactionDetails(transactionId: string, result: ApiResult<TransactionInfo>)
      modifies this
      ensures state.loadingTransactionIds == old(state).loadingTransactionIds - {transactionId}
      ensures result.Success? ==> GetTransactionSplits(transactionId) == Some(result.data.splits)
      ensures result.Error? ==> state.transactionDetails == old(state).transactionDetails
    {
      BeginTransactionDetails(transactionId);
      FinishTransactionDetails(transactionId, result);
    }

    /** `getTransactionSplits`: the cached splits, if the details are cached. */
    function GetTransactionSplits(transactionId: string): (splits: Option<seq<SplitInfo>>)
      reads this
      ensures splits.Some? <==> transactionId in state.transactionDetails
      ensures splits.Some? ==> splits.value == state.transactionDetails[transactionId].splits
    {
      if transactionId in state.transactionDetails then Some(state.transactionDetails[transactionId].splits) else None
    }

    /** `isTransactionLoading`. */
    predicate IsTransactionLoading(transactionId: string)
      reads this
    {
      transactionId in state.loadingTransactionIds
    }

    /**
     * `createSimpleTransaction`: nothing without an open account; an
     * amount that does not read stops the call with the loading flag left
     * on; otherwise the two-split transfer is sent (`sent`), then a
     * success reloads the register and a failure shows the message.
     */
    method CreateSimpleTransaction(date: string, description: string, amount: string, transferAccountId: string,
                                   transferAccountCurrency: string, num: Option<string>,
                                   created: ApiResult<TransactionInfo>, reloaded: ApiResult<RegisterResponse>)
      returns (sent: Option<CreateTransactionRequest>)
      modifies this
      ensures old(state).accountId.None? ==> sent == None && state == old(state)
      ensures old(state).accountId.Some? && ParseDecimal(amount).None? ==>
        sent == None && state == old(state).(isLoading := true, error := None)
      ensures old(state).accountId.Some? && ParseDecimal(amount).Some? ==>
        var started := old(state).(isLoading := true, error := None);
        sent == Some(TransferRequest(date, num, description, old(state).accountId.value, amount, transferAccountId,
                                     transferAccountCurrency, ParseDecimal(amount).value)) &&
        (created.Success? ==> state == Loaded(started, old(state).accountId.value, reloaded)) &&
        (created.Error? ==> state == started.(isLoading := false, error := Some(created.message)))
    {
      if state.accountId.None? {
        return None;
      }
      var id := state.accountId.value;
      state := state.(isLoading := true, error := None);
      var parsed := ParseDecimal(amount);
      if parsed.None? {
        return None;
      }
      sent := Some(CreateTransactionRequest(date, num, description, None,
        TransferSplits(id, amount, transferAccountId, transferAccountCurrency, parsed.value)));
      match created
      case Success(_) =>
        LoadRegister(id, reloaded);
      case Error(message, _) =>
        state := state.(isLoading := false, error := Some(message));
    }

    method ClearError()
      modifies this
      ensures state == old(state).(error := None)
    {
      state := state.(error := None);
    }

    /** `clear`: back to the default state. */
    method Clear()
      modifies this
      ensures state == Default
    {
      state := Default;
    }
  }
}
